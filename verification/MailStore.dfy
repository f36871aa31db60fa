/** The mail store's tables as the IMAP backend uses them, for any number of accounts
    (a domain and a user each). A message carries its own rows of the flag and box
    tables, so deleting it deletes them. */
module MailStore {
  import opened Collections
  import opened Expunging
  import opened Flags
  import Uids

  type Account = nat
  type LabelId = nat

  datatype Message = Message(account: Account, marks: Marks, labels: set<LabelId>)

  datatype LabelName = LabelName(account: Account, name: string)

  type Messages = map<MsgId, Message>

  /** Message IDs in the order of their creation, the messages, and the UID rows. */
  datatype Tables = Tables(order: seq<MsgId>, messages: Messages, uids: Uids.Table)

  predicate InBox(messages: Messages, m: MsgId, account: Account, box: LabelId) {
    m in messages && messages[m].account == account && box in messages[m].labels
  }

  /** The messages of a label in the order of their creation. */
  function Listing(order: seq<MsgId>, messages: Messages, account: Account, box: LabelId): seq<MsgId> {
    if order == [] then []
    else
      (if InBox(messages, order[0], account, box) then [order[0]] else [])
        + Listing(order[1..], messages, account, box)
  }

  /** LIMIT and OFFSET; a limit that is not positive means 50. */
  function Page(list: seq<MsgId>, limit: int, offset: int): seq<MsgId> {
    var from := if offset < 0 then 0 else Min(offset, |list|);
    var size := if limit <= 0 then 50 else limit;
    list[from..Min(from + size, |list|)]
  }

  function Unlabelled(messages: Messages, ids: set<MsgId>, box: LabelId): Messages {
    map m | m in messages :: if m in ids then messages[m].(labels := messages[m].labels - {box}) else messages[m]
  }

  function Labelled(messages: Messages, ids: set<MsgId>, box: LabelId): Messages {
    map m | m in messages :: if m in ids then messages[m].(labels := messages[m].labels + {box}) else messages[m]
  }

  function Deleted(messages: Messages): set<MsgId> {
    set m | m in messages && DELETED in messages[m].marks.rows
  }

  lemma {:induction false} ListingMembers(order: seq<MsgId>, messages: Messages, account: Account, box: LabelId)
    ensures forall m :: m in Listing(order, messages, account, box) <==> m in order && InBox(messages, m, account, box)
    ensures Distinct(order) ==> Distinct(Listing(order, messages, account, box))
  {
    if order != [] {
      ListingMembers(order[1..], messages, account, box);
      assert order == [order[0]] + order[1..];
    }
  }

  lemma {:induction false} ListingUnlabelled(order: seq<MsgId>, messages: Messages, ids: set<MsgId>,
                                            account: Account, box: LabelId)
    ensures Listing(order, Unlabelled(messages, ids, box), account, box)
         == Without(Listing(order, messages, account, box), ids)
  {
    if order != [] {
      ListingUnlabelled(order[1..], messages, ids, account, box);
      var rest := Listing(order[1..], messages, account, box);
      if InBox(messages, order[0], account, box) {
        assert Listing(order, messages, account, box) == [order[0]] + rest && ([order[0]] + rest)[1..] == rest;
      } else {
        assert Listing(order, messages, account, box) == rest;
      }
    }
  }

  lemma UnlabelMore(messages: Messages, a: set<MsgId>, m: MsgId, box: LabelId)
    requires m in messages
    ensures var part := Unlabelled(messages, a, box);
      && m in part
      && Unlabelled(messages, a + {m}, box) == part[m := part[m].(labels := part[m].labels - {box} + {})]
  {
    var labels := messages[m].labels;
    assert labels - {box} + {} == labels - {box} && labels - {box} - {box} + {} == labels - {box};
  }

  /** How many messages of a list are unread, by their column. */
  function CountUnread(messages: Messages, list: seq<MsgId>): nat {
    if list == [] then 0
    else (if list[0] in messages && !messages[list[0]].marks.isRead then 1 else 0) + CountUnread(messages, list[1..])
  }

  /** How many messages of a list do not show \Seen. */
  function CountUnseen(messages: Messages, list: seq<MsgId>): nat {
    if list == [] then 0
    else (if list[0] in messages && SEEN !in Visible(messages[list[0]].marks) then 1 else 0) + CountUnseen(messages, list[1..])
  }

  /** The messages of a list whose read column is not set. */
  ghost function Unread(messages: Messages, list: seq<MsgId>): set<MsgId> {
    set m | m in list && m in messages && !messages[m].marks.isRead
  }

  /** The messages of a list that do not show \Seen. */
  ghost function Unseen(messages: Messages, list: seq<MsgId>): set<MsgId> {
    set m | m in list && m in messages && SEEN !in Visible(messages[m].marks)
  }

  lemma UnreadHead(messages: Messages, list: seq<MsgId>)
    requires list != [] && list[0] !in list[1..]
    ensures |Unread(messages, list)|
         == (if list[0] in messages && !messages[list[0]].marks.isRead then 1 else 0) + |Unread(messages, list[1..])|
  {
    var first, rest := list[0], Unread(messages, list[1..]);
    assert forall m :: m in list <==> m == first || m in list[1..];
    var some := if first in messages && !messages[first].marks.isRead then {first} else {};
    assert Unread(messages, list) == some + rest && some !! rest;
  }

  lemma UnseenHead(messages: Messages, list: seq<MsgId>)
    requires list != [] && list[0] !in list[1..]
    ensures |Unseen(messages, list)|
         == (if list[0] in messages && SEEN !in Visible(messages[list[0]].marks) then 1 else 0) + |Unseen(messages, list[1..])|
  {
    var first, rest := list[0], Unseen(messages, list[1..]);
    assert forall m :: m in list <==> m == first || m in list[1..];
    var some := if first in messages && SEEN !in Visible(messages[first].marks) then {first} else {};
    assert Unseen(messages, list) == some + rest && some !! rest;
  }

  lemma {:induction false} Counted(messages: Messages, list: seq<MsgId>)
    requires Distinct(list)
    ensures CountUnread(messages, list) == |Unread(messages, list)|
    ensures CountUnseen(messages, list) == |Unseen(messages, list)|
  {
    if list != [] {
      Counted(messages, list[1..]);
      UnreadHead(messages, list);
      UnseenHead(messages, list);
    }
  }

  /** The counts of a mailbox are those of its messages, each counted once. */
  lemma CountsInBox(order: seq<MsgId>, messages: Messages, account: Account, box: LabelId)
    requires Distinct(order) && forall m :: m in order <==> m in messages
    ensures var list := Listing(order, messages, account, box);
      && CountUnread(messages, list)
         == |set m | m in messages && messages[m].account == account && box in messages[m].labels && !messages[m].marks.isRead|
      && CountUnseen(messages, list)
         == |set m | m in messages && messages[m].account == account && box in messages[m].labels
                     && SEEN !in Visible(messages[m].marks)|
  {
    var list := Listing(order, messages, account, box);
    ListingMembers(order, messages, account, box);
    Counted(messages, list);
    assert Unread(messages, list)
        == set m | m in messages && messages[m].account == account && box in messages[m].labels && !messages[m].marks.isRead;
    assert Unseen(messages, list)
        == set m | m in messages && messages[m].account == account && box in messages[m].labels
                   && SEEN !in Visible(messages[m].marks);
  }

  ghost predicate AllInStep(messages: Messages) {
    forall m :: m in messages ==> InStep(messages[m].marks)
  }

  lemma {:induction false} UnreadIsUnseen(messages: Messages, list: seq<MsgId>)
    requires AllInStep(messages)
    ensures CountUnread(messages, list) == CountUnseen(messages, list)
  {
    if list != [] {
      UnreadIsUnseen(messages, list[1..]);
      if list[0] in messages {
        UnreadIffNotSeen(messages[list[0]].marks);
      }
    }
  }

  /** Unread, and yet a \Seen row shows. */
  predicate Torn(messages: Messages, m: MsgId) {
    m in messages && !messages[m].marks.isRead && SEEN in messages[m].marks.rows
  }

  /** The two counts agree exactly when no message of the list is torn. */
  lemma {:induction false} CountsAgreeExactly(messages: Messages, list: seq<MsgId>)
    ensures CountUnseen(messages, list) <= CountUnread(messages, list)
    ensures CountUnread(messages, list) == CountUnseen(messages, list)
      <==> forall k :: 0 <= k < |list| ==> !Torn(messages, list[k])
  {
    if list != [] {
      CountsAgreeExactly(messages, list[1..]);
      DistinctNames();
      assert forall k :: 0 <= k < |list[1..]| ==> list[1..][k] == list[k + 1];
      if exists k :: 0 <= k < |list| && Torn(messages, list[k]) && !Torn(messages, list[0]) {
        var k :| 0 <= k < |list| && Torn(messages, list[k]) && !Torn(messages, list[0]);
        assert Torn(messages, list[1..][k - 1]);
      }
    }
  }

  class Store {
    /** Message IDs in the order of their creation. */
    var order: seq<MsgId>
    var messages: Messages
    var labelIds: map<LabelName, LabelId>
    var uids: Uids.Table

    ghost function Rows(): Tables
      reads this
    {
      Tables(order, messages, uids)
    }

    ghost predicate Valid()
      reads this
    {
      Distinct(order) && forall m :: m in order <==> m in messages
    }

    constructor (labelIds: map<LabelName, LabelId>)
      ensures Valid() && order == [] && messages == map[] && uids == Uids.EMPTY.table && this.labelIds == labelIds
    {
      order, messages, uids := [], map[], Uids.Table(map[], 0);
      this.labelIds := labelIds;
    }

    method CreateMessage(id: MsgId, message: Message)
      requires Valid() && id !in messages
      modifies this`order, this`messages
      ensures Valid() && order == old(order) + [id] && messages == old(messages)[id := message]
    {
      order := order + [id];
      messages := messages[id := message];
    }

    /** Deletes the message and, by cascade, its flag, label and UID rows. */
    method DeleteMessage(account: Account, id: MsgId)
      requires Valid()
      modifies this`order, this`messages, this`uids
      ensures Valid()
      ensures var hit := id in old(messages) && old(messages)[id].account == account;
        && messages == (if hit then old(messages) - {id} else old(messages))
        && order == (if hit then Without(old(order), {id}) else old(order))
        && uids == (if hit then Uids.Forgotten(old(uids), id) else old(uids))
    {
      if id in messages && messages[id].account == account {
        DistinctWithout(order, {id});
        WithoutMembers(order, {id});
        order := Without(order, {id});
        messages := messages - {id};
        uids := Uids.Forgotten(uids, id);
      }
    }

    method ListMessages(account: Account, box: LabelId, limit: int, offset: int) returns (page: seq<MsgId>)
      ensures page == Page(Listing(order, messages, account, box), limit, offset)
    {
      page := Page(Listing(order, messages, account, box), limit, offset);
    }

    method UpdateMessage(account: Account, id: MsgId, patch: Patch) returns (found: bool)
      modifies this`messages
      ensures found <==> id in old(messages) && old(messages)[id].account == account
      ensures messages == if found then old(messages)[id := old(messages)[id].(marks := Patched(old(messages)[id].marks, patch))]
                          else old(messages)
    {
      found := id in messages && messages[id].account == account;
      if found {
        messages := messages[id := messages[id].(marks := Patched(messages[id].marks, patch))];
      }
    }

    method SetFlag(id: MsgId, flag: string)
      requires id in messages
      modifies this`messages
      ensures messages == old(messages)[id := old(messages)[id].(marks := Flags.SetFlag(old(messages)[id].marks, flag))]
    {
      messages := messages[id := messages[id].(marks := Flags.SetFlag(messages[id].marks, flag))];
    }

    method ClearFlag(id: MsgId, flag: string)
      requires id in messages
      modifies this`messages
      ensures messages == old(messages)[id := old(messages)[id].(marks := Flags.ClearFlag(old(messages)[id].marks, flag))]
    {
      messages := messages[id := messages[id].(marks := Flags.ClearFlag(messages[id].marks, flag))];
    }

    method ApplyLabels(id: MsgId, add: set<LabelId>, remove: set<LabelId>)
      requires id in messages
      modifies this`messages
      ensures messages == old(messages)[id := old(messages)[id].(labels := old(messages)[id].labels - remove + add)]
    {
      messages := messages[id := messages[id].(labels := messages[id].labels - remove + add)];
    }

    method CountUnreadByLabel(account: Account, box: LabelId) returns (n: nat)
      requires Valid()
      ensures n == CountUnread(messages, Listing(order, messages, account, box))
      ensures n == |set m | m in messages && messages[m].account == account && box in messages[m].labels
                            && !messages[m].marks.isRead|
      ensures AllInStep(messages) ==> n == CountUnseen(messages, Listing(order, messages, account, box))
    {
      var list := Listing(order, messages, account, box);
      n := 0;
      var i := |list|;
      while i > 0
        invariant 0 <= i <= |list| && n == CountUnread(messages, list[i..])
      {
        i := i - 1;
        assert list[i..][1..] == list[i + 1..];
        if list[i] in messages && !messages[list[i]].marks.isRead {
          n := n + 1;
        }
      }
      CountsInBox(order, messages, account, box);
      if AllInStep(messages) {
        UnreadIsUnseen(messages, list);
      }
    }

    /** The UID of a message in a mailbox, as the protocol sees it; 0 if it has none. */
    method GetIMAPUID(id: MsgId, user: nat, mailbox: string) returns (uid: nat)
      ensures var k := Uids.Key(id, user, mailbox);
        uid == if k in uids.uids then Uids.Uint32(uids.uids[k]) else 0
    {
      var k := Uids.Key(id, user, mailbox);
      uid := if k in uids.uids then Uids.Uint32(uids.uids[k]) else 0;
    }

    method GetOrCreateIMAPUID(id: MsgId, user: nat, mailbox: string) returns (uid: nat)
      modifies this`uids
      ensures var k := Uids.Key(id, user, mailbox);
        uids == Uids.Assigned(old(uids), k) && uid == Uids.Uint32(uids.uids[k])
      ensures var k := Uids.Key(id, user, mailbox);
        uids == if k in old(uids).uids then old(uids)
                else Uids.Table(old(uids).uids[k := old(uids).last + 1], old(uids).last + 2)
    {
      var k := Uids.Key(id, user, mailbox);
      if k in uids.uids {
        return Uids.Uint32(uids.uids[k]);
      }
      var next := uids.last + 1;
      var modseq := next + 1;
      uids := Uids.Table(uids.uids[k := next], modseq);
      uid := Uids.Uint32(next);
    }

    method GetMaxIMAPUID(user: nat, mailbox: string) returns (uid: nat)
      ensures exists max: nat :: Uids.IsMax(uids, user, mailbox, max) && uid == Uids.Uint32(max)
    {
      var max: nat := 0;
      var todo := uids.uids.Keys;
      while todo != {}
        invariant todo <= uids.uids.Keys
        invariant forall k :: k in uids.uids && k !in todo && k.user == user && k.mailbox == mailbox ==> uids.uids[k] <= max
        invariant max == 0 || exists k :: k in uids.uids && k.user == user && k.mailbox == mailbox && uids.uids[k] == max
        decreases |todo|
      {
        var k :| k in todo;
        if k.user == user && k.mailbox == mailbox && uids.uids[k] > max {
          max := uids.uids[k];
        }
        todo := todo - {k};
      }
      assert Uids.IsMax(uids, user, mailbox, max);
      uid := Uids.Uint32(max);
    }
  }

  lemma {:induction false} DistinctWithout(list: seq<MsgId>, gone: set<MsgId>)
    requires Distinct(list)
    ensures Distinct(Without(list, gone))
  {
    if list != [] {
      DistinctWithout(list[1..], gone);
      WithoutMembers(list[1..], gone);
      assert list == [list[0]] + list[1..];
    }
  }
}
