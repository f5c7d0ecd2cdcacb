/** How the browser folds the pages of a thread list into one list of rows. */
module MergedPages {
  import opened Text
  import opened Sorting
  import opened Envelopes
  import opened ThreadIds
  import opened Conversations

  /** Each element once, where it first appears. */
  function Dedup(s: seq<nat>): (r: seq<nat>)
    ensures forall u :: u in r <==> u in s
  {
    if s == [] then []
    else
      var before, last := s[..|s| - 1], s[|s| - 1];
      if last in before then Dedup(before) else Dedup(before) + [last]
  }

  function UnknownOf(addrs: seq<Address>, known: set<string>): seq<Address> {
    if addrs == [] then []
    else (if AddressKey(addrs[0]) in known then [] else [addrs[0]]) + UnknownOf(addrs[1..], known)
  }

  /** Two rows of one id as one: the newer one's subject, snippet and date, both ones' messages and people. */
  function MergeRows(a: ThreadSummary, t: ThreadSummary): ThreadSummary {
    var newer := if t.date > a.date then t else a;
    newer.(
      uids := Dedup(a.uids + t.uids),
      participants := a.participants + UnknownOf(t.participants, set p | p in a.participants :: AddressKey(p)),
      unread := a.unread || t.unread,
      flagged := a.flagged || t.flagged,
      hasAttachments := a.hasAttachments || t.hasAttachments,
      messageCount := a.messageCount + t.messageCount)
  }

  function IndexOf(rows: seq<ThreadSummary>, id: string): (r: Option<nat>)
    ensures r.Some? ==> r.value < |rows| && rows[r.value].id == id
    ensures r.None? ==> forall i :: 0 <= i < |rows| ==> rows[i].id != id
  {
    if rows == [] then None
    else if rows[|rows| - 1].id == id then Some(|rows| - 1)
    else IndexOf(rows[..|rows| - 1], id)
  }

  /** Folds one more row into the list: into the row of the same id, or at the end. */
  function AddRow(rows: seq<ThreadSummary>, t: ThreadSummary): seq<ThreadSummary> {
    match IndexOf(rows, t.id)
    case None => rows + [t]
    case Some(at) => rows[at := MergeRows(rows[at], t)]
  }

  function MergeAll(list: seq<ThreadSummary>): seq<ThreadSummary> {
    if list == [] then [] else AddRow(MergeAll(list[..|list| - 1]), list[|list| - 1])
  }

  function Concat(pages: seq<seq<ThreadSummary>>): seq<ThreadSummary> {
    if pages == [] then [] else Concat(pages[..|pages| - 1]) + pages[|pages| - 1]
  }

  ghost predicate DistinctIds(rows: seq<ThreadSummary>) {
    forall i, j :: 0 <= i < j < |rows| ==> rows[i].id != rows[j].id
  }

  lemma MergeRowsHolds(a: ThreadSummary, t: ThreadSummary)
    requires a.id == t.id
    ensures MergeRows(a, t).id == t.id
    ensures forall u :: u in MergeRows(a, t).uids <==> u in a.uids || u in t.uids
    ensures MergeRows(a, t).messageCount == a.messageCount + t.messageCount
  {
  }

  /** Adding a row changes no id, and only the row of that id. */
  lemma AddRowChanges(rows: seq<ThreadSummary>, t: ThreadSummary)
    requires DistinctIds(rows)
    ensures var out := AddRow(rows, t);
      && DistinctIds(out) && |rows| <= |out| <= |rows| + 1
      && (forall i :: 0 <= i < |rows| ==> out[i].id == rows[i].id && (rows[i].id != t.id ==> out[i] == rows[i]))
      && (forall i :: 0 <= i < |rows| && rows[i].id == t.id ==> out[i] == MergeRows(rows[i], t) && |out| == |rows|)
      && (|out| > |rows| ==> out[|rows|] == t && forall i :: 0 <= i < |rows| ==> rows[i].id != t.id)
      && (exists i :: 0 <= i < |out| && out[i].id == t.id)
  {
    hide MergeRows;
    var out := AddRow(rows, t);
    if IndexOf(rows, t.id).Some? {
      var at := IndexOf(rows, t.id).value;
      MergeRowsHolds(rows[at], t);
      assert out[at].id == t.id;
    } else {
      assert out[|rows|].id == t.id;
    }
  }

  /** Row ids are unique, whatever the pages hold. */
  lemma {:induction false} MergedIdsAreDistinct(list: seq<ThreadSummary>)
    ensures DistinctIds(MergeAll(list))
  {
    hide AddRow;
    if list != [] {
      MergedIdsAreDistinct(list[..|list| - 1]);
      AddRowChanges(MergeAll(list[..|list| - 1]), list[|list| - 1]);
    }
  }

  ghost predicate IndexMatches(byId: map<string, nat>, out: seq<ThreadSummary>) {
    && (forall id :: id in byId ==> byId[id] < |out| && out[byId[id]].id == id)
    && (forall i :: 0 <= i < |out| ==> out[i].id in byId)
  }

  /** Folds one page into the rows so far. */
  method MergePage(rows: seq<ThreadSummary>, index: map<string, nat>, page: seq<ThreadSummary>, ghost before: seq<ThreadSummary>)
    returns (out: seq<ThreadSummary>, byId: map<string, nat>)
    requires rows == MergeAll(before) && IndexMatches(index, rows)
    ensures out == MergeAll(before + page) && IndexMatches(byId, out)
  {
    hide MergeRows, MergeAll;
    out, byId := rows, index;
    assert before + page[..0] == before;
    for k := 0 to |page|
      invariant out == MergeAll(before + page[..k]) && IndexMatches(byId, out)
    {
      MergedIdsAreDistinct(before + page[..k]);
      MergeStep(before, page, k);
      AddRowChanges(out, page[k]);
      var t := page[k];
      if t.id !in byId {
        byId := byId[t.id := |out|];
        out := out + [t];
      } else {
        var at := byId[t.id];
        out := out[at := MergeRows(out[at], t)];
      }
    }
    assert before + page[..|page|] == before + page;
  }

  method MergePages(pages: seq<seq<ThreadSummary>>) returns (out: seq<ThreadSummary>)
    ensures out == MergeAll(Concat(pages))
  {
    out := [];
    var byId: map<string, nat> := map[];
    for p := 0 to |pages|
      invariant out == MergeAll(Concat(pages[..p])) && IndexMatches(byId, out)
    {
      assert pages[..p + 1][..p] == pages[..p];
      out, byId := MergePage(out, byId, pages[p], Concat(pages[..p]));
    }
    assert pages[..|pages|] == pages;
  }

  lemma MergeStep(before: seq<ThreadSummary>, page: seq<ThreadSummary>, k: nat)
    requires k < |page|
    ensures MergeAll(before + page[..k + 1]) == AddRow(MergeAll(before + page[..k]), page[k])
  {
    hide AddRow;
    var more := before + page[..k + 1];
    assert more[..|more| - 1] == before + page[..k];
  }

  // ---- what the rows hold -------------------------------------------------------------

  /** The row counts its messages and lists each once. */
  ghost predicate CountsItsMessages(t: ThreadSummary) {
    t.messageCount == |t.uids| && NoDuplicates(t.uids)
  }

  /** No message is listed by two of the rows. */
  ghost predicate DisjointRows(list: seq<ThreadSummary>) {
    forall i, j, u :: 0 <= i < j < |list| && u in list[i].uids ==> u !in list[j].uids
  }

  lemma {:induction false} DedupDistinct(s: seq<nat>)
    requires NoDuplicates(s)
    ensures Dedup(s) == s
  {
    if s != [] {
      DedupDistinct(s[..|s| - 1]);
    }
  }

  /** Some page row with this id lists the message. */
  ghost predicate ListedUnder(list: seq<ThreadSummary>, id: string, u: nat) {
    exists i :: 0 <= i < |list| && list[i].id == id && u in list[i].uids
  }

  lemma ListedUnderMore(before: seq<ThreadSummary>, t: ThreadSummary, id: string, u: nat)
    ensures ListedUnder(before + [t], id, u) <==> ListedUnder(before, id, u) || (t.id == id && u in t.uids)
  {
    var list := before + [t];
    if i :| 0 <= i < |before| && before[i].id == id && u in before[i].uids {
      assert list[i] == before[i];
    }
    if t.id == id && u in t.uids {
      assert list[|before|] == t;
    }
  }

  /** A merged row lists exactly the messages of the page rows with its id. */
  lemma {:induction false} MergedRowsHold(list: seq<ThreadSummary>, k: nat, u: nat)
    requires k < |MergeAll(list)|
    ensures u in MergeAll(list)[k].uids <==> ListedUnder(list, MergeAll(list)[k].id, u)
  {
    hide AddRow, MergeRows;
    var before, t := list[..|list| - 1], list[|list| - 1];
    var rows := MergeAll(before);
    MergedIdsAreDistinct(before);
    AddRowChanges(rows, t);
    ListedUnderMore(before, t, MergeAll(list)[k].id, u);
    assert before + [t] == list;
    if k < |rows| {
      MergedRowsHold(before, k, u);
      if rows[k].id == t.id {
        MergeRowsHolds(rows[k], t);
      }
    } else {
      NoEarlierRow(before, t.id);
    }
  }

  /** Every page row went into the merged row of its id. */
  lemma {:induction false} EveryRowIsMerged(list: seq<ThreadSummary>, i: nat) returns (k: nat)
    requires i < |list|
    ensures k < |MergeAll(list)| && MergeAll(list)[k].id == list[i].id
  {
    hide AddRow;
    var before, t := list[..|list| - 1], list[|list| - 1];
    MergedIdsAreDistinct(before);
    AddRowChanges(MergeAll(before), t);
    if i < |before| {
      k := EveryRowIsMerged(before, i);
    } else {
      k :| 0 <= k < |MergeAll(list)| && MergeAll(list)[k].id == t.id;
    }
  }

  lemma NoEarlierRow(before: seq<ThreadSummary>, id: string)
    requires forall k :: 0 <= k < |MergeAll(before)| ==> MergeAll(before)[k].id != id
    ensures forall i :: 0 <= i < |before| ==> before[i].id != id
  {
    forall i | 0 <= i < |before|
      ensures before[i].id != id
    {
      var k := EveryRowIsMerged(before, i);
    }
  }

  /** A merged row stands where its id first came: before it, some page row has the id of any row in front of it. */
  lemma {:induction false} RowsStandWhereTheirIdsFirstCame(list: seq<ThreadSummary>, k: nat, l: nat) returns (i: nat)
    requires k < l < |MergeAll(list)|
    ensures i < |list| && list[i].id == MergeAll(list)[k].id
    ensures forall j :: 0 <= j <= i ==> list[j].id != MergeAll(list)[l].id
  {
    hide AddRow;
    var before, t := list[..|list| - 1], list[|list| - 1];
    var rows := MergeAll(before);
    MergedIdsAreDistinct(before);
    AddRowChanges(rows, t);
    if l < |rows| {
      i := RowsStandWhereTheirIdsFirstCame(before, k, l);
    } else {
      NoEarlierRow(before, t.id);
      i := RowHasPageRow(before, k);
    }
  }

  /** Every merged row has the id of some page row. */
  lemma {:induction false} RowHasPageRow(list: seq<ThreadSummary>, k: nat) returns (i: nat)
    requires k < |MergeAll(list)|
    ensures i < |list| && list[i].id == MergeAll(list)[k].id
  {
    hide AddRow;
    var before, t := list[..|list| - 1], list[|list| - 1];
    MergedIdsAreDistinct(before);
    AddRowChanges(MergeAll(before), t);
    if k < |MergeAll(before)| {
      i := RowHasPageRow(before, k);
    } else {
      i := |before|;
    }
  }

  /** With no message on two pages, every merged row counts exactly the messages it lists. */
  lemma {:induction false} MergedRowsCount(list: seq<ThreadSummary>, k: nat)
    requires DisjointRows(list) && forall i :: 0 <= i < |list| ==> CountsItsMessages(list[i])
    requires k < |MergeAll(list)|
    ensures CountsItsMessages(MergeAll(list)[k])
  {
    hide AddRow, MergeRows;
    var before, t := list[..|list| - 1], list[|list| - 1];
    var rows := MergeAll(before);
    MergedIdsAreDistinct(before);
    AddRowChanges(rows, t);
    assert DisjointRows(before);
    assert CountsItsMessages(t);
    if k < |rows| {
      MergedRowsCount(before, k);
      if rows[k].id == t.id {
        forall u | u in rows[k].uids
          ensures u !in t.uids
        {
          MergedRowsHold(before, k, u);
          var i :| 0 <= i < |before| && before[i].id == rows[k].id && u in before[i].uids;
          assert list[i] == before[i];
        }
        MergingCounts(rows[k], t);
      }
    }
  }

  lemma MergingCounts(a: ThreadSummary, t: ThreadSummary)
    requires CountsItsMessages(a) && CountsItsMessages(t) && forall u :: u in a.uids ==> u !in t.uids
    ensures CountsItsMessages(MergeRows(a, t))
  {
    var both := a.uids + t.uids;
    forall i, j | 0 <= i < j < |both|
      ensures both[i] != both[j]
    {
      if i < |a.uids| <= j {
        assert both[i] in a.uids && both[j] in t.uids;
      }
    }
    DedupDistinct(both);
  }

  /** A message of some page is in one merged row, and in no other. */
  lemma MergedRowsPartition(list: seq<ThreadSummary>, u: nat) returns (k: nat)
    requires DisjointRows(list) && exists i :: 0 <= i < |list| && u in list[i].uids
    ensures k < |MergeAll(list)| && u in MergeAll(list)[k].uids
    ensures forall l :: 0 <= l < |MergeAll(list)| && l != k ==> u !in MergeAll(list)[l].uids
  {
    hide MergeAll;
    var i :| 0 <= i < |list| && u in list[i].uids;
    k := EveryRowIsMerged(list, i);
    MergedRowsHold(list, k, u);
    MergedIdsAreDistinct(list);
    forall l | 0 <= l < |MergeAll(list)| && u in MergeAll(list)[l].uids
      ensures l == k
    {
      MergedRowsHold(list, l, u);
      var j :| 0 <= j < |list| && list[j].id == MergeAll(list)[l].id && u in list[j].uids;
      assert i == j;
    }
  }
}
