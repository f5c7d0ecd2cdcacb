/** What the fields of a merged row say of the page rows of its id. */
module MergedFields {
  import opened Text
  import opened Sorting
  import opened Envelopes
  import opened Conversations
  import opened ConversationLaws
  import opened MergedPages
  import Grouping

  ghost predicate Under(list: seq<ThreadSummary>, id: string, i: int) {
    0 <= i < |list| && list[i].id == id
  }

  /** Of the page rows of the id the first with the greatest date. */
  ghost predicate IsNewest(list: seq<ThreadSummary>, id: string, n: int) {
    && Under(list, id, n)
    && forall i :: Under(list, id, i) ==> list[i].date <= list[n].date && (i < n ==> list[i].date < list[n].date)
  }

  /** Some page row of the id has the property. */
  ghost predicate AnyUnder(list: seq<ThreadSummary>, id: string, p: ThreadSummary -> bool) {
    exists i :: Under(list, id, i) && p(list[i])
  }

  lemma MergingShowsNewer(a: ThreadSummary, t: ThreadSummary)
    requires a.id == t.id
    ensures var newer, row := if t.date > a.date then t else a, MergeRows(a, t);
      && row.id == a.id && row.date == newer.date && row.subject == newer.subject && row.snippet == newer.snippet
      && row.folder == newer.folder && row.answered == newer.answered
  {
  }

  /** Date, subject, snippet, folder and answered mark of a merged row are those of the newest page row of its id. */
  lemma {:induction false} MergedRowShowsNewest(list: seq<ThreadSummary>, k: nat) returns (n: nat)
    requires k < |MergeAll(list)|
    ensures IsNewest(list, MergeAll(list)[k].id, n)
    ensures var row := MergeAll(list)[k];
      && row.date == list[n].date && row.subject == list[n].subject && row.snippet == list[n].snippet
      && row.folder == list[n].folder && row.answered == list[n].answered
  {
    hide AddRow, MergeRows;
    var before, t := list[..|list| - 1], list[|list| - 1];
    var rows := MergeAll(before);
    MergedIdsAreDistinct(before);
    AddRowChanges(rows, t);
    if k < |rows| {
      n := MergedRowShowsNewest(before, k);
      if rows[k].id == t.id {
        MergingShowsNewer(rows[k], t);
        n := if t.date > rows[k].date then |before| else n;
      }
    } else {
      NoEarlierRow(before, t.id);
      n := |before|;
    }
  }

  lemma MergingJoinsFlags(a: ThreadSummary, t: ThreadSummary)
    requires a.id == t.id
    ensures var row := MergeRows(a, t);
      && row.id == a.id && row.unread == (a.unread || t.unread) && row.flagged == (a.flagged || t.flagged)
      && row.hasAttachments == (a.hasAttachments || t.hasAttachments) && row.messageCount == a.messageCount + t.messageCount
  {
  }

  lemma AnyUnderMore(before: seq<ThreadSummary>, t: ThreadSummary, id: string, p: ThreadSummary -> bool)
    ensures AnyUnder(before + [t], id, p) <==> AnyUnder(before, id, p) || (t.id == id && p(t))
  {
    var list := before + [t];
    if i :| Under(before, id, i) && p(before[i]) {
      assert Under(list, id, i) && list[i] == before[i];
    }
    if t.id == id && p(t) {
      assert Under(list, id, |before|);
    }
    if i :| Under(list, id, i) && p(list[i]) && i < |before| {
      assert Under(before, id, i);
    }
  }

  /** How many messages the page rows of the id count together. */
  ghost function CountUnder(list: seq<ThreadSummary>, id: string): nat {
    if list == [] then 0
    else
      var last := list[|list| - 1];
      CountUnder(list[..|list| - 1], id) + if last.id == id then last.messageCount else 0
  }

  lemma {:induction false} NoneUnder(list: seq<ThreadSummary>, id: string)
    requires forall i :: 0 <= i < |list| ==> list[i].id != id
    ensures CountUnder(list, id) == 0 && UidsUnder(list, id) == [] && PeopleUnder(list, id) == []
  {
    if list != [] {
      NoneUnder(list[..|list| - 1], id);
    }
  }

  /** A merged row is unread, flagged or has attachments when some page row of its id is or has; it counts what they count. */
  lemma {:induction false} MergedRowJoinsFlags(list: seq<ThreadSummary>, k: nat)
    requires k < |MergeAll(list)|
    ensures var row := MergeAll(list)[k];
      && (row.unread <==> AnyUnder(list, row.id, (t: ThreadSummary) => t.unread))
      && (row.flagged <==> AnyUnder(list, row.id, (t: ThreadSummary) => t.flagged))
      && (row.hasAttachments <==> AnyUnder(list, row.id, (t: ThreadSummary) => t.hasAttachments))
      && row.messageCount == CountUnder(list, row.id)
  {
    hide AddRow, MergeRows, AnyUnder;
    var before, t := list[..|list| - 1], list[|list| - 1];
    var rows, id := MergeAll(before), MergeAll(list)[k].id;
    MergedIdsAreDistinct(before);
    AddRowChanges(rows, t);
    assert list == before + [t];
    AnyUnderMore(before, t, id, (t: ThreadSummary) => t.unread);
    AnyUnderMore(before, t, id, (t: ThreadSummary) => t.flagged);
    AnyUnderMore(before, t, id, (t: ThreadSummary) => t.hasAttachments);
    if k < |rows| {
      MergedRowJoinsFlags(before, k);
      if rows[k].id == t.id {
        MergingJoinsFlags(rows[k], t);
      }
    } else {
      NoEarlierRow(before, t.id);
      NoneUnder(before, t.id);
      NothingUnder(before, t.id, (t: ThreadSummary) => t.unread);
      NothingUnder(before, t.id, (t: ThreadSummary) => t.flagged);
      NothingUnder(before, t.id, (t: ThreadSummary) => t.hasAttachments);
    }
  }

  lemma NothingUnder(list: seq<ThreadSummary>, id: string, p: ThreadSummary -> bool)
    requires forall i :: 0 <= i < |list| ==> list[i].id != id
    ensures !AnyUnder(list, id, p)
  {
  }

  // ---- lists --------------------------------------------------------------------------------

  /** The UIDs of the page rows of the id, one row after the other. */
  ghost function UidsUnder(list: seq<ThreadSummary>, id: string): seq<nat> {
    if list == [] then []
    else
      var last := list[|list| - 1];
      UidsUnder(list[..|list| - 1], id) + if last.id == id then last.uids else []
  }

  /** The participants of the page rows of the id, one row after the other. */
  ghost function PeopleUnder(list: seq<ThreadSummary>, id: string): seq<Address> {
    if list == [] then []
    else
      var last := list[|list| - 1];
      PeopleUnder(list[..|list| - 1], id) + if last.id == id then last.participants else []
  }

  ghost predicate DistinctPeople(t: ThreadSummary) {
    forall i, j :: 0 <= i < j < |t.participants| ==> AddressKey(t.participants[i]) != AddressKey(t.participants[j])
  }

  /** Each element comes once, where it first stood: the earlier of two stood before the later one ever did. */
  lemma {:induction false} DedupInOrder(s: seq<nat>, i: nat, j: nat) returns (x: nat)
    requires i < j < |Dedup(s)|
    ensures x < |s| && s[x] == Dedup(s)[i] && forall y :: 0 <= y <= x ==> s[y] != Dedup(s)[j]
  {
    var before, last := s[..|s| - 1], s[|s| - 1];
    if j < |Dedup(before)| {
      x := DedupInOrder(before, i, j);
    } else {
      assert Dedup(before)[i] in before;
      x :| 0 <= x < |before| && before[x] == Dedup(before)[i];
      assert forall y :: 0 <= y <= x ==> s[y] == before[y];
    }
  }

  lemma {:induction false} DedupTwice(a: seq<nat>, b: seq<nat>)
    ensures Dedup(Dedup(a) + b) == Dedup(a + b)
  {
    if b == [] {
      assert Dedup(a) + b == Dedup(a) && a + b == a;
      DedupStays(a);
    } else {
      var less := b[..|b| - 1];
      DedupTwice(a, less);
      assert (a + b)[..|a + b| - 1] == a + less;
      assert (Dedup(a) + b)[..|Dedup(a) + b| - 1] == Dedup(a) + less;
    }
  }

  lemma {:induction false} DedupStays(a: seq<nat>)
    ensures NoDuplicates(Dedup(a)) && Dedup(Dedup(a)) == Dedup(a)
  {
    if a != [] {
      DedupStays(a[..|a| - 1]);
    }
    DedupDistinct(Dedup(a));
  }

  /** A merged row lists the messages of the page rows of its id in their order, each where it first stood. */
  lemma {:induction false} MergedUidsInOrder(list: seq<ThreadSummary>, k: nat)
    requires k < |MergeAll(list)| && forall i :: 0 <= i < |list| ==> NoDuplicates(list[i].uids)
    ensures MergeAll(list)[k].uids == Dedup(UidsUnder(list, MergeAll(list)[k].id))
  {
    hide AddRow, MergeRows;
    var before, t := list[..|list| - 1], list[|list| - 1];
    var rows := MergeAll(before);
    MergedIdsAreDistinct(before);
    AddRowChanges(rows, t);
    if k < |rows| {
      MergedUidsInOrder(before, k);
      if rows[k].id == t.id {
        MergedLists(rows[k], t);
        DedupTwice(UidsUnder(before, t.id), t.uids);
        assert UidsUnder(list, t.id) == UidsUnder(before, t.id) + t.uids;
      } else {
        assert UidsUnder(list, rows[k].id) == UidsUnder(before, rows[k].id);
      }
    } else {
      NoEarlierRow(before, t.id);
      NoneUnder(before, t.id);
      DedupDistinct(t.uids);
      assert [] + t.uids == t.uids;
    }
  }

  lemma MergedLists(a: ThreadSummary, t: ThreadSummary)
    requires a.id == t.id
    ensures MergeRows(a, t).id == a.id
    ensures MergeRows(a, t).uids == Dedup(a.uids + t.uids)
    ensures MergeRows(a, t).participants == a.participants + UnknownOf(t.participants, Grouping.Keys(a.participants))
  {
    assert (set p | p in a.participants :: AddressKey(p)) == Grouping.Keys(a.participants);
  }

  lemma {:induction false} UnknownIsUnseen(addrs: seq<Address>, known: set<string>)
    requires forall i, j :: 0 <= i < j < |addrs| ==> AddressKey(addrs[i]) != AddressKey(addrs[j])
    ensures UnknownOf(addrs, known) == Unseen(addrs, known)
  {
    if addrs != [] {
      UnknownIsUnseen(addrs[1..], known);
      if AddressKey(addrs[0]) !in known {
        assert forall i :: 1 <= i < |addrs| ==> AddressKey(addrs[i]) != AddressKey(addrs[0]);
        MoreKnown(addrs[1..], known, AddressKey(addrs[0]));
      }
    }
  }

  lemma {:induction false} MoreKnown(addrs: seq<Address>, known: set<string>, key: string)
    requires forall i :: 0 <= i < |addrs| ==> AddressKey(addrs[i]) != key
    ensures Unseen(addrs, known + {key}) == Unseen(addrs, known)
  {
    if addrs != [] {
      var a := AddressKey(addrs[0]);
      assert a in known + {key} <==> a in known;
      if a in known {
        MoreKnown(addrs[1..], known, key);
      } else {
        MoreKnown(addrs[1..], known + {a}, key);
        assert known + {key} + {a} == known + {a} + {key};
      }
    }
  }

  lemma {:induction false} UnseenKeys(addrs: seq<Address>, seen: set<string>)
    ensures Grouping.Keys(Unseen(addrs, seen)) + seen == Grouping.Keys(addrs) + seen
  {
    if addrs != [] {
      var a := AddressKey(addrs[0]);
      assert addrs == [addrs[0]] + addrs[1..];
      assert Grouping.Keys(addrs) == {a} + Grouping.Keys(addrs[1..]);
      UnseenKeys(addrs[1..], if a in seen then seen else seen + {a});
      var rest := Unseen(addrs[1..], seen + {a});
      assert Grouping.Keys([addrs[0]] + rest) == {a} + Grouping.Keys(rest);
    }
  }

  /**
   * The participants of a merged row are those of the page rows of its id, one row after the other, each where they first
   * stand, whatever the letter case.
   */
  lemma {:induction false} MergedPeopleInOrder(list: seq<ThreadSummary>, k: nat)
    requires k < |MergeAll(list)| && forall i :: 0 <= i < |list| ==> DistinctPeople(list[i])
    ensures MergeAll(list)[k].participants == Unseen(PeopleUnder(list, MergeAll(list)[k].id), {})
  {
    hide AddRow, MergeRows, Unseen, UnknownOf, Grouping.Keys, AddressKey;
    var before, t := list[..|list| - 1], list[|list| - 1];
    var rows := MergeAll(before);
    MergedIdsAreDistinct(before);
    AddRowChanges(rows, t);
    assert DistinctPeople(t);
    if k < |rows| {
      MergedPeopleInOrder(before, k);
      if rows[k].id == t.id {
        var people := PeopleUnder(before, t.id);
        MergedLists(rows[k], t);
        Grouping.UnseenAppend(people, t.participants, {});
        UnseenKeys(people, {});
        assert Grouping.Keys(people) + {} == Grouping.Keys(people) && {} + Grouping.Keys(people) == Grouping.Keys(people);
        assert Grouping.Keys(Unseen(people, {})) + {} == Grouping.Keys(Unseen(people, {}));
        UnknownIsUnseen(t.participants, Grouping.Keys(people));
        assert PeopleUnder(list, t.id) == people + t.participants;
      } else {
        assert PeopleUnder(list, rows[k].id) == PeopleUnder(before, rows[k].id);
      }
    } else {
      NoEarlierRow(before, t.id);
      NoneUnder(before, t.id);
      UnseenDistinct(t.participants);
      assert [] + t.participants == t.participants;
    }
  }

  lemma UnseenDistinct(addrs: seq<Address>)
    requires forall i, j :: 0 <= i < j < |addrs| ==> AddressKey(addrs[i]) != AddressKey(addrs[j])
    ensures Unseen(addrs, {}) == addrs
  {
    UnknownIsUnseen(addrs, {});
    NoneKnown(addrs);
  }

  lemma {:induction false} NoneKnown(addrs: seq<Address>)
    ensures UnknownOf(addrs, {}) == addrs
  {
    if addrs != [] {
      NoneKnown(addrs[1..]);
    }
  }
}
