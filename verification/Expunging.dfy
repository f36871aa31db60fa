/** Paging by offset over a list that shrinks while it is paged through. */
module Expunging {
  import opened Collections

  type MsgId = nat

  function Without(list: seq<MsgId>, gone: set<MsgId>): seq<MsgId> {
    if list == [] then []
    else (if list[0] in gone then [] else [list[0]]) + Without(list[1..], gone)
  }

  function CountIn(list: seq<MsgId>, gone: set<MsgId>): nat {
    if list == [] then 0 else (if list[0] in gone then 1 else 0) + CountIn(list[1..], gone)
  }

  function Min(a: nat, b: nat): nat { if a < b then a else b }

  /** What an EXPUNGE leaves of the part of the mailbox that lies ahead of it, when it is
      to skip `skip` messages and then, page by page, to look at `batch` messages; or,
      if `page > 0`, when it is to look at `page` more messages of the current page first.
      A message removed from a page moves all later ones forward, so that the next offset
      skips one message more. */
  function Scan(list: seq<MsgId>, deleted: set<MsgId>, batch: nat, page: nat, skip: nat): seq<MsgId>
    requires batch > 0
    decreases |list|, if page == 0 && skip == 0 then 1 else 0
  {
    if list == [] then []
    else if page > 0 then
      if list[0] in deleted then Scan(list[1..], deleted, batch, page - 1, skip + 1)
      else [list[0]] + Scan(list[1..], deleted, batch, page - 1, skip)
    else if skip > 0 then [list[0]] + Scan(list[1..], deleted, batch, 0, skip - 1)
    else Scan(list, deleted, batch, batch, 0)
  }

  /** What one EXPUNGE leaves of a mailbox. */
  function Pass(list: seq<MsgId>, deleted: set<MsgId>, batch: nat): seq<MsgId>
    requires batch > 0
  {
    Scan(list, deleted, batch, 0, 0)
  }

  lemma {:induction false} WithoutShrinks(list: seq<MsgId>, gone: set<MsgId>)
    ensures |Without(list, gone)| + CountIn(list, gone) == |list|
  {
    if list != [] {
      WithoutShrinks(list[1..], gone);
    }
  }

  lemma WithoutAppend(a: seq<MsgId>, b: seq<MsgId>, gone: set<MsgId>)
    ensures Without(a + b, gone) == Without(a, gone) + Without(b, gone)
    ensures CountIn(a + b, gone) == CountIn(a, gone) + CountIn(b, gone)
  {
    WithoutSplits(a, b, gone);
    CountSplits(a, b, gone);
  }

  lemma {:induction false} WithoutSplits(a: seq<MsgId>, b: seq<MsgId>, gone: set<MsgId>)
    ensures Without(a + b, gone) == Without(a, gone) + Without(b, gone)
  {
    if a == [] {
      assert a + b == b;
    } else {
      WithoutSplits(a[1..], b, gone);
      WithoutHead(a, gone);
      WithoutHead(a + b, gone);
      assert (a + b)[1..] == a[1..] + b && (a + b)[0] == a[0];
      Associative(Without(a[..1], gone), Without(a[1..], gone), Without(b, gone));
      assert (a + b)[..1] == a[..1];
    }
  }

  lemma WithoutHead(list: seq<MsgId>, gone: set<MsgId>)
    requires list != []
    ensures Without(list, gone) == Without(list[..1], gone) + Without(list[1..], gone)
  {
    assert list[..1] == [list[0]] && [list[0]][1..] == [];
  }

  lemma {:induction false} CountSplits(a: seq<MsgId>, b: seq<MsgId>, gone: set<MsgId>)
    ensures CountIn(a + b, gone) == CountIn(a, gone) + CountIn(b, gone)
  {
    if a == [] {
      assert a + b == b;
    } else {
      CountSplits(a[1..], b, gone);
      assert (a + b)[1..] == a[1..] + b;
    }
  }

  lemma {:induction false} WithoutMembers(list: seq<MsgId>, gone: set<MsgId>)
    ensures forall m :: m in Without(list, gone) <==> m in list && m !in gone
    ensures CountIn(list, gone) == 0 <==> forall m :: m in list ==> m !in gone
  {
    if list != [] {
      WithoutMembers(list[1..], gone);
      assert list == [list[0]] + list[1..];
    }
  }

  lemma {:induction false} WithoutTwice(list: seq<MsgId>, a: set<MsgId>, b: set<MsgId>)
    ensures Without(Without(list, a), b) == Without(list, a + b)
  {
    if list != [] {
      WithoutTwice(list[1..], a, b);
      var rest := Without(list[1..], a);
      if list[0] in a {
        assert Without(list, a) == rest;
      } else {
        assert Without(list, a) == [list[0]] + rest && ([list[0]] + rest)[1..] == rest;
      }
    }
  }

  lemma {:induction false} WithoutAgree(list: seq<MsgId>, a: set<MsgId>, b: set<MsgId>)
    requires forall m :: m in list ==> (m in a <==> m in b)
    ensures Without(list, a) == Without(list, b)
  {
    if list != [] {
      assert list == [list[0]] + list[1..];
      WithoutAgree(list[1..], a, b);
    }
  }

  lemma {:induction false} ScanKeepsOthers(list: seq<MsgId>, deleted: set<MsgId>, batch: nat, page: nat, skip: nat)
    requires batch > 0
    ensures Without(Scan(list, deleted, batch, page, skip), deleted) == Without(list, deleted)
    decreases |list|, if page == 0 && skip == 0 then 1 else 0
  {
    if list == [] {
    } else if page > 0 && list[0] in deleted {
      ScanKeepsOthers(list[1..], deleted, batch, page - 1, skip + 1);
    } else if page > 0 {
      ScanKeepsOthers(list[1..], deleted, batch, page - 1, skip);
      assert Scan(list, deleted, batch, page, skip)[1..] == Scan(list[1..], deleted, batch, page - 1, skip);
    } else if skip > 0 {
      ScanKeepsOthers(list[1..], deleted, batch, 0, skip - 1);
      assert Scan(list, deleted, batch, page, skip)[1..] == Scan(list[1..], deleted, batch, 0, skip - 1);
    } else {
      ScanKeepsOthers(list, deleted, batch, batch, 0);
    }
  }

  lemma {:induction false} ScanProgresses(list: seq<MsgId>, deleted: set<MsgId>, batch: nat, page: nat, skip: nat)
    requires batch > 0
    ensures CountIn(Scan(list, deleted, batch, page, skip), deleted) <= CountIn(list, deleted)
    ensures skip == 0 && CountIn(list, deleted) > 0 ==>
      CountIn(Scan(list, deleted, batch, page, skip), deleted) < CountIn(list, deleted)
    decreases |list|, if page == 0 && skip == 0 then 1 else 0
  {
    if list == [] {
    } else if page > 0 && list[0] in deleted {
      ScanProgresses(list[1..], deleted, batch, page - 1, skip + 1);
    } else if page > 0 {
      ScanProgresses(list[1..], deleted, batch, page - 1, skip);
      assert Scan(list, deleted, batch, page, skip)[1..] == Scan(list[1..], deleted, batch, page - 1, skip);
    } else if skip > 0 {
      ScanProgresses(list[1..], deleted, batch, 0, skip - 1);
      assert Scan(list, deleted, batch, page, skip)[1..] == Scan(list[1..], deleted, batch, 0, skip - 1);
    } else {
      ScanProgresses(list, deleted, batch, batch, 0);
    }
  }

  /** What a scan leaves is the list without what the scan took out. */
  lemma {:induction false} ScanIsWithout(list: seq<MsgId>, deleted: set<MsgId>, batch: nat, page: nat, skip: nat)
    requires batch > 0 && Distinct(list)
    ensures forall m :: m in Scan(list, deleted, batch, page, skip) ==> m in list
    ensures Without(list, set m | m in list && m !in Scan(list, deleted, batch, page, skip))
         == Scan(list, deleted, batch, page, skip)
    decreases |list|, if page == 0 && skip == 0 then 1 else 0
  {
    var kept := Scan(list, deleted, batch, page, skip);
    if list == [] {
    } else if page == 0 && skip == 0 {
      ScanIsWithout(list, deleted, batch, batch, 0);
    } else {
      var tail :=
        if page == 0 then Scan(list[1..], deleted, batch, 0, skip - 1)
        else if list[0] in deleted then Scan(list[1..], deleted, batch, page - 1, skip + 1)
        else Scan(list[1..], deleted, batch, page - 1, skip);
      if page == 0 {
        ScanIsWithout(list[1..], deleted, batch, 0, skip - 1);
      } else if list[0] in deleted {
        ScanIsWithout(list[1..], deleted, batch, page - 1, skip + 1);
      } else {
        ScanIsWithout(list[1..], deleted, batch, page - 1, skip);
      }
      TakenOut(list, kept, tail);
    }
  }

  lemma TakenOut(list: seq<MsgId>, kept: seq<MsgId>, tail: seq<MsgId>)
    requires list != [] && Distinct(list) && (kept == tail || kept == [list[0]] + tail)
    requires forall m :: m in tail ==> m in list[1..]
    requires Without(list[1..], set m | m in list[1..] && m !in tail) == tail
    ensures Without(list, set m | m in list && m !in kept) == kept && forall m :: m in kept ==> m in list
  {
    assert list == [list[0]] + list[1..] && list[0] !in list[1..];
    WithoutAgree(list[1..], set m | m in list && m !in kept, set m | m in list[1..] && m !in tail);
  }

  /** Looking at a page. */
  lemma {:induction false} ScanPage(page: seq<MsgId>, behind: seq<MsgId>, deleted: set<MsgId>, batch: nat, skip: nat)
    requires batch > 0
    ensures Scan(page + behind, deleted, batch, |page|, skip)
         == Without(page, deleted) + Scan(behind, deleted, batch, 0, skip + CountIn(page, deleted))
  {
    if page == [] {
      assert page + behind == behind;
    } else {
      assert (page + behind)[1..] == page[1..] + behind;
      ScanPage(page[1..], behind, deleted, batch, if page[0] in deleted then skip + 1 else skip);
    }
  }

  /** Looking at the last messages. */
  lemma {:induction false} ScanLast(list: seq<MsgId>, deleted: set<MsgId>, batch: nat, page: nat, skip: nat)
    requires batch > 0 && |list| <= page
    ensures Scan(list, deleted, batch, page, skip) == Without(list, deleted)
  {
    if list != [] {
      ScanLast(list[1..], deleted, batch, page - 1, if list[0] in deleted then skip + 1 else skip);
    }
  }

  /** Skipping messages. */
  lemma {:induction false} ScanSkip(a: seq<MsgId>, b: seq<MsgId>, deleted: set<MsgId>, batch: nat, more: nat)
    requires batch > 0
    ensures Scan(a + b, deleted, batch, 0, |a| + more) == a + Scan(b, deleted, batch, 0, more)
  {
    if a == [] {
      assert a + b == b;
    } else {
      ScanSkip(a[1..], b, deleted, batch, more);
      assert (a + b)[1..] == a[1..] + b && (a + b)[0] == a[0];
      Associative([a[0]], a[1..], Scan(b, deleted, batch, 0, more));
      assert a == [a[0]] + a[1..];
    }
  }

  lemma {:induction false} ScanBeyond(list: seq<MsgId>, deleted: set<MsgId>, batch: nat, skip: nat)
    requires batch > 0 && |list| <= skip
    ensures Scan(list, deleted, batch, 0, skip) == list
  {
    if list != [] {
      ScanBeyond(list[1..], deleted, batch, skip - 1);
    }
  }

  /** After a full page, going on in the shorter list from a page further leaves the same. */
  lemma FullPage(done: seq<MsgId>, page: seq<MsgId>, behind: seq<MsgId>, deleted: set<MsgId>, batch: nat)
    requires batch > 0 && |page| == batch
    ensures Scan(done + Without(page, deleted) + behind, deleted, batch, 0, |done| + batch)
         == Scan(done + page + behind, deleted, batch, 0, |done|)
  {
    var kept, count := Without(page, deleted), CountIn(page, deleted);
    var rest := Scan(behind, deleted, batch, 0, count);
    WithoutShrinks(page, deleted);
    ScanSkip(done + kept, behind, deleted, batch, count);
    assert done + page + behind == done + (page + behind);
    ScanSkip(done, page + behind, deleted, batch, 0);
    ScanPage(page, behind, deleted, batch, 0);
    assert (done + kept) + rest == done + (kept + rest);
  }

  /** The last page. */
  lemma LastPage(done: seq<MsgId>, page: seq<MsgId>, deleted: set<MsgId>, batch: nat)
    requires batch > 0 && |page| <= batch
    ensures Scan(done + page, deleted, batch, 0, |done|) == done + Without(page, deleted)
  {
    ScanSkip(done, page, deleted, batch, 0);
    ScanLast(page, deleted, batch, batch, 0);
  }

  /** A pass removes deleted messages only: what is not deleted stays, in order. */
  lemma PassKeepsOthers(list: seq<MsgId>, deleted: set<MsgId>, batch: nat)
    requires batch > 0
    ensures Without(Pass(list, deleted, batch), deleted) == Without(list, deleted)
  {
    ScanKeepsOthers(list, deleted, batch, 0, 0);
  }

  /** A mailbox of at most one page loses all its deleted messages in one pass. */
  lemma OnePageSuffices(list: seq<MsgId>, deleted: set<MsgId>, batch: nat)
    requires batch > 0 && |list| <= batch
    ensures Pass(list, deleted, batch) == Without(list, deleted)
  {
    ScanLast(list, deleted, batch, batch, 0);
  }

  /** The messages behind each page of `batch`, as many as the page holds deleted ones;
      the next page begins behind those. */
  function Windows(list: seq<MsgId>, deleted: set<MsgId>, batch: nat): seq<MsgId>
    requires batch > 0
    decreases |list|
  {
    if |list| <= batch then []
    else
      var behind := list[batch..];
      var width := Min(CountIn(list[..batch], deleted), |behind|);
      behind[..width] + Windows(behind[width..], deleted, batch)
  }

  lemma WindowsOfPage(page: seq<MsgId>, window: seq<MsgId>, rest: seq<MsgId>, deleted: set<MsgId>, batch: nat)
    requires batch > 0 && |page| == batch && window + rest != []
    requires |window| == Min(CountIn(page, deleted), |window + rest|)
    ensures Windows(page + (window + rest), deleted, batch) == window + Windows(rest, deleted, batch)
  {
    var list := page + (window + rest);
    assert list[..batch] == page && list[batch..] == window + rest;
    assert (window + rest)[..|window|] == window && (window + rest)[|window|..] == rest;
  }

  lemma PassOfPage(page: seq<MsgId>, window: seq<MsgId>, rest: seq<MsgId>, deleted: set<MsgId>, batch: nat)
    requires batch > 0 && |page| == batch
    requires |window| == Min(CountIn(page, deleted), |window + rest|)
    ensures Pass(page + (window + rest), deleted, batch) == Without(page, deleted) + (window + Pass(rest, deleted, batch))
  {
    var count := CountIn(page, deleted);
    assert Pass(page + (window + rest), deleted, batch) == Scan(page + (window + rest), deleted, batch, |page|, 0);
    ScanPage(page, window + rest, deleted, batch, 0);
    if |window| == count {
      ScanSkip(window, rest, deleted, batch, 0);
    } else {
      assert rest == [] && window + rest == window;
      ScanBeyond(window, deleted, batch, count);
      assert window + [] == window;
    }
  }

  /** A pass leaves as many deleted messages as there are in the windows. */
  lemma {:induction false} PassLeavesWindows(list: seq<MsgId>, deleted: set<MsgId>, batch: nat)
    requires batch > 0
    ensures CountIn(Pass(list, deleted, batch), deleted) == CountIn(Windows(list, deleted, batch), deleted)
    decreases |list|
  {
    if |list| <= batch {
      OnePageSuffices(list, deleted, batch);
      NoneLeft(list, deleted);
    } else {
      var page, behind := list[..batch], list[batch..];
      var width := Min(CountIn(page, deleted), |behind|);
      var window, rest := behind[..width], behind[width..];
      assert behind == window + rest && list == page + (window + rest);
      WindowsOfPage(page, window, rest, deleted, batch);
      PassOfPage(page, window, rest, deleted, batch);
      PassLeavesWindows(rest, deleted, batch);
      NoneLeft(page, deleted);
      WithoutAppend(Without(page, deleted), window + Pass(rest, deleted, batch), deleted);
      WithoutAppend(window, Pass(rest, deleted, batch), deleted);
      WithoutAppend(window, Windows(rest, deleted, batch), deleted);
    }
  }

  /** One pass is enough exactly when no deleted message lies in a window: among the d
      messages behind a page that holds d deleted ones. */
  lemma OnePassEnoughExactly(list: seq<MsgId>, deleted: set<MsgId>, batch: nat)
    requires batch > 0
    ensures Pass(list, deleted, batch) == Without(list, deleted)
      <==> forall k :: 0 <= k < |Windows(list, deleted, batch)| ==> Windows(list, deleted, batch)[k] !in deleted
  {
    var windows := Windows(list, deleted, batch);
    PassLeavesWindows(list, deleted, batch);
    WithoutMembers(windows, deleted);
    assert (forall m :: m in windows ==> m !in deleted) <==> forall k :: 0 <= k < |windows| ==> windows[k] !in deleted;
    PassKeepsOthers(list, deleted, batch);
    NoneLeft(list, deleted);
    if CountIn(Pass(list, deleted, batch), deleted) == 0 {
      NothingToRemove(Pass(list, deleted, batch), deleted);
    }
  }

  /** A pass over a list with deleted messages removes at least one of them. */
  lemma PassProgresses(list: seq<MsgId>, deleted: set<MsgId>, batch: nat)
    requires batch > 0
    ensures CountIn(Pass(list, deleted, batch), deleted) <= CountIn(list, deleted)
    ensures CountIn(list, deleted) > 0 ==> CountIn(Pass(list, deleted, batch), deleted) < CountIn(list, deleted)
  {
    ScanProgresses(list, deleted, batch, 0, 0);
  }

  lemma NoneLeft(list: seq<MsgId>, gone: set<MsgId>)
    ensures CountIn(Without(list, gone), gone) == 0
  {
    WithoutMembers(list, gone);
    WithoutMembers(Without(list, gone), gone);
  }

  /** A pass removes nothing exactly when there is nothing left to remove. */
  lemma PassRemovesNothing(list: seq<MsgId>, deleted: set<MsgId>, batch: nat)
    requires batch > 0
    ensures Pass(list, deleted, batch) == list <==> CountIn(list, deleted) == 0
  {
    PassProgresses(list, deleted, batch);
    if CountIn(list, deleted) == 0 {
      PassKeepsOthers(list, deleted, batch);
      NothingToRemove(list, deleted);
      NothingToRemove(Pass(list, deleted, batch), deleted);
    }
  }

  lemma {:induction false} NothingToRemove(list: seq<MsgId>, gone: set<MsgId>)
    requires CountIn(list, gone) == 0
    ensures Without(list, gone) == list
  {
    if list != [] {
      NothingToRemove(list[1..], gone);
    }
  }

  function Passes(list: seq<MsgId>, deleted: set<MsgId>, batch: nat, k: nat): seq<MsgId>
    requires batch > 0
    decreases k
  {
    if k == 0 then list else Passes(Pass(list, deleted, batch), deleted, batch, k - 1)
  }

  /** As many passes as there are deleted messages leave exactly the others. */
  lemma {:induction false} EnoughPasses(list: seq<MsgId>, deleted: set<MsgId>, batch: nat, k: nat)
    requires batch > 0 && CountIn(list, deleted) <= k
    ensures Passes(list, deleted, batch, k) == Without(list, deleted)
    decreases k
  {
    if k == 0 {
      NothingToRemove(list, deleted);
    } else {
      PassProgresses(list, deleted, batch);
      PassKeepsOthers(list, deleted, batch);
      EnoughPasses(Pass(list, deleted, batch), deleted, batch, k - 1);
    }
  }

  /** One pass is not always enough: with pages of one, a deleted message right behind
      another is skipped. */
  lemma OnePassSkips(a: MsgId, b: MsgId)
    requires a != b
    ensures Pass([a, b], {a, b}, 1) == [b]
  {
    var deleted := {a, b};
    assert [a, b][1..] == [b] && [b][1..] == [];
    assert Scan([a, b], deleted, 1, 1, 0) == Scan([b], deleted, 1, 0, 1);
    assert Scan([b], deleted, 1, 0, 1) == [b] + Scan([], deleted, 1, 0, 0);
  }
}
