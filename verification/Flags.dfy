/** A message's flags, held twice: as boolean columns of its row and as rows of the
    flag table. */
module Flags {

  const SEEN := "\\Seen"
  const FLAGGED := "\\Flagged"
  const ANSWERED := "\\Answered"
  const DRAFT := "\\Draft"
  const DELETED := "\\Deleted"

  datatype Marks = Marks(rows: set<string>, isRead: bool, isFlagged: bool, isAnswered: bool, isDraft: bool)

  /** The boolean part of a message patch; None leaves a column as it is. */
  datatype Change = Keep | To(value: bool)

  datatype Patch = Patch(isRead: Change, isFlagged: Change, isAnswered: Change, isDraft: Change)

  function Coalesce(c: Change, value: bool): bool { if c.To? then c.value else value }

  function Patched(m: Marks, p: Patch): Marks {
    Marks(m.rows, Coalesce(p.isRead, m.isRead), Coalesce(p.isFlagged, m.isFlagged),
          Coalesce(p.isAnswered, m.isAnswered), Coalesce(p.isDraft, m.isDraft))
  }

  const NO_CHANGE := Patch(Keep, Keep, Keep, Keep)

  /** The patch that keeps a column in step with a flag. \Deleted has no column. */
  function FlagToPatch(flag: string, value: bool): Patch {
    if flag == SEEN then NO_CHANGE.(isRead := To(value))
    else if flag == FLAGGED then NO_CHANGE.(isFlagged := To(value))
    else if flag == ANSWERED then NO_CHANGE.(isAnswered := To(value))
    else if flag == DRAFT then NO_CHANGE.(isDraft := To(value))
    else NO_CHANGE
  }

  function SetFlag(m: Marks, flag: string): Marks { m.(rows := m.rows + {flag}) }

  function ClearFlag(m: Marks, flag: string): Marks { m.(rows := m.rows - {flag}) }

  datatype FlagsOp = AddFlags | RemoveFlags | SetFlags

  function Added(m: Marks, flags: seq<string>): Marks
    decreases |flags|
  {
    if flags == [] then m else Added(Patched(SetFlag(m, flags[0]), FlagToPatch(flags[0], true)), flags[1..])
  }

  function Removed(m: Marks, flags: seq<string>): Marks
    decreases |flags|
  {
    if flags == [] then m else Removed(Patched(ClearFlag(m, flags[0]), FlagToPatch(flags[0], false)), flags[1..])
  }

  const KNOWN := [SEEN, FLAGGED, ANSWERED, DRAFT, DELETED]

  /** Without the five known flags, in either place. */
  function Cleared(m: Marks): Marks {
    Marks(m.rows - {SEEN, FLAGGED, ANSWERED, DRAFT, DELETED}, false, false, false, false)
  }

  function Stored(m: Marks, op: FlagsOp, flags: seq<string>): Marks {
    match op
    case AddFlags => Added(m, flags)
    case RemoveFlags => Removed(m, flags)
    case SetFlags => Added(Cleared(m), flags)
  }

  /** What FETCH FLAGS lists: the rows, then a flag for each column that is set. */
  datatype FlagList = FlagList(rows: set<string>, columns: seq<string>)
  {
    function Occurrences(f: string): nat { (if f in rows then 1 else 0) + multiset(columns)[f] }
  }

  function Listed(m: Marks): FlagList { FlagList(m.rows, Columns(m)) }

  function Columns(m: Marks): seq<string> {
    If(m.isRead, SEEN) + If(m.isFlagged, FLAGGED) + If(m.isAnswered, ANSWERED) + If(m.isDraft, DRAFT)
  }

  function If(column: bool, flag: string): seq<string> { if column then [flag] else [] }

  /** The same as a set. */
  function Visible(m: Marks): set<string> {
    m.rows + (if m.isRead then {SEEN} else {}) + (if m.isFlagged then {FLAGGED} else {})
      + (if m.isAnswered then {ANSWERED} else {}) + (if m.isDraft then {DRAFT} else {})
  }

  /** Whether a flag's column is set; most flags have none. */
  predicate Column(m: Marks, f: string) {
    || (f == SEEN && m.isRead) || (f == FLAGGED && m.isFlagged)
    || (f == ANSWERED && m.isAnswered) || (f == DRAFT && m.isDraft)
  }

  /** FETCH lists exactly the visible flags, one of them twice if and only if it has both
      a row and a column. */
  lemma ListedExactly(m: Marks, f: string)
    ensures Listed(m).Occurrences(f) == (if f in m.rows then 1 else 0) + (if Column(m, f) then 1 else 0)
    ensures f in Visible(m) <==> Listed(m).Occurrences(f) > 0
  {
    ColumnOccurs(m, f);
    ShownByRowOrColumn(m, f);
  }

  lemma ColumnOccurs(m: Marks, f: string)
    ensures multiset(Columns(m))[f] == if Column(m, f) then 1 else 0
  {
    DistinctNames();
    OccurrencesAdd(If(m.isRead, SEEN), If(m.isFlagged, FLAGGED), If(m.isAnswered, ANSWERED), If(m.isDraft, DRAFT), f);
    IfOccurs(m.isRead, SEEN, f);
    IfOccurs(m.isFlagged, FLAGGED, f);
    IfOccurs(m.isAnswered, ANSWERED, f);
    IfOccurs(m.isDraft, DRAFT, f);
  }

  lemma IfOccurs(column: bool, flag: string, f: string)
    ensures multiset(If(column, flag))[f] == if column && flag == f then 1 else 0
  {
  }

  lemma OccurrencesAdd(a: seq<string>, b: seq<string>, c: seq<string>, d: seq<string>, f: string)
    ensures multiset(a + b + c + d)[f] == multiset(a)[f] + multiset(b)[f] + multiset(c)[f] + multiset(d)[f]
  {
  }

  lemma ShownByRowOrColumn(m: Marks, f: string)
    ensures f in Visible(m) <==> f in m.rows || Column(m, f)
  {
  }

  /** A row for one of the four flags implies the column. */
  predicate InStep(m: Marks) {
    && (SEEN in m.rows ==> m.isRead) && (FLAGGED in m.rows ==> m.isFlagged)
    && (ANSWERED in m.rows ==> m.isAnswered) && (DRAFT in m.rows ==> m.isDraft)
  }

  function Members(flags: seq<string>): set<string> { set f | f in flags }

  lemma MembersHead(flags: seq<string>)
    requires flags != []
    ensures Members(flags) == {flags[0]} + Members(flags[1..])
  {
    assert flags == [flags[0]] + flags[1..];
  }

  lemma DistinctNames()
    ensures SEEN != FLAGGED && SEEN != ANSWERED && SEEN != DRAFT && SEEN != DELETED && FLAGGED != ANSWERED
    ensures FLAGGED != DRAFT && FLAGGED != DELETED && ANSWERED != DRAFT && ANSWERED != DELETED && DRAFT != DELETED
  {
    assert SEEN[1] == 'S' && FLAGGED[1] == 'F' && ANSWERED[1] == 'A' && DRAFT[1] == 'D' && DELETED[1] == 'D';
    assert DRAFT[2] == 'r' && DELETED[2] == 'e';
  }

  lemma SetOne(m: Marks, f: string)
    ensures var m' := Patched(SetFlag(m, f), FlagToPatch(f, true));
      Visible(m') == Visible(m) + {f} && (InStep(m) ==> InStep(m'))
  {
  }

  lemma ClearOne(m: Marks, f: string)
    ensures var m' := Patched(ClearFlag(m, f), FlagToPatch(f, false));
      Visible(m') == Visible(m) - {f} && (InStep(m) ==> InStep(m'))
  {
    DistinctNames();
  }

  lemma {:induction false} AddedMeaning(m: Marks, flags: seq<string>)
    ensures Visible(Added(m, flags)) == Visible(m) + Members(flags) && (InStep(m) ==> InStep(Added(m, flags)))
    decreases |flags|
  {
    if flags != [] {
      SetOne(m, flags[0]);
      AddedMeaning(Patched(SetFlag(m, flags[0]), FlagToPatch(flags[0], true)), flags[1..]);
      MembersHead(flags);
    }
  }

  lemma {:induction false} RemovedMeaning(m: Marks, flags: seq<string>)
    ensures Visible(Removed(m, flags)) == Visible(m) - Members(flags) && (InStep(m) ==> InStep(Removed(m, flags)))
    decreases |flags|
  {
    if flags != [] {
      ClearOne(m, flags[0]);
      RemovedMeaning(Patched(ClearFlag(m, flags[0]), FlagToPatch(flags[0], false)), flags[1..]);
      MembersHead(flags);
    }
  }

  /** STORE +FLAGS, -FLAGS and FLAGS act on what FETCH shows as union, difference and
      replacement of the five system flags, keywords kept, and keep rows and columns
      in step. */
  lemma StoreMeaning(m: Marks, op: FlagsOp, flags: seq<string>)
    ensures Visible(Stored(m, op, flags)) ==
      match op
      case AddFlags => Visible(m) + Members(flags)
      case RemoveFlags => Visible(m) - Members(flags)
      case SetFlags => (Visible(m) - {SEEN, FLAGGED, ANSWERED, DRAFT, DELETED}) + Members(flags)
    ensures InStep(m) ==> InStep(Stored(m, op, flags))
  {
    match op
    case AddFlags => AddedMeaning(m, flags);
    case RemoveFlags => RemovedMeaning(m, flags);
    case SetFlags =>
      AddedMeaning(Cleared(m), flags);
      assert Visible(Cleared(m)) == Visible(m) - {SEEN, FLAGGED, ANSWERED, DRAFT, DELETED};
  }

  /** With rows and columns in step, a message is unread exactly when it does not show \Seen. */
  lemma UnreadIffNotSeen(m: Marks)
    requires InStep(m)
    ensures !m.isRead <==> SEEN !in Visible(m)
  {
    DistinctNames();
  }

  /** The webmail patches only a column. Marking a message read or unread leaves the
      column in agreement with what FETCH shows exactly when it does not mark unread a
      message with a \Seen row. */
  lemma WebmailAgreesExactly(m: Marks, read: bool)
    ensures var m' := Patched(m, NO_CHANGE.(isRead := To(read)));
      (!m'.isRead <==> SEEN !in Visible(m')) <==> (read || SEEN !in m.rows)
  {
    DistinctNames();
  }
}
