/** What holds of every thread list: it partitions the messages by their links, and its ids tell threads apart. */
module ConversationLaws {
  import opened Text
  import opened Graph
  import opened Sorting
  import opened Envelopes
  import opened ThreadIds
  import opened Conversations

  lemma SameUidSameMessage(envs: seq<Envelope>, e: Envelope, f: Envelope)
    requires DistinctUids(envs) && e in envs && f in envs && e.uid == f.uid
    ensures e == f
  {
  }

  /** A message is listed by UID in a conversation exactly when it is connected to it. */
  lemma ListedIffConnected(envs: seq<Envelope>, id: string, e: Envelope)
    requires DistinctUids(envs) && e in envs
    ensures e.uid in Uids(Conversation(envs, id)) <==> Connected(Links(Elements(envs)), id, e.messageId)
  {
    var c := Conversation(envs, id);
    ConversationMembers(envs, id);
    if e.uid in Uids(c) {
      var i :| 0 <= i < |c| && c[i].uid == e.uid;
      assert c[i] in c;
      SameUidSameMessage(envs, e, c[i]);
    }
    if e in c {
      var i :| 0 <= i < |c| && c[i] == e;
      assert Uids(c)[i] == e.uid;
    }
  }

  /** Every row of the thread list is the conversation around one of the heads. */
  lemma ThreadHasHead(envs: seq<Envelope>, folder: string, k: nat) returns (f: Envelope)
    requires k < |Threads(envs, folder)|
    ensures f in Firsts(envs, Elements(envs)) && f in envs && Conversation(envs, f.messageId) != []
    ensures Threads(envs, folder)[k] == Summarize(Conversation(envs, f.messageId), folder)
  {
    var firsts := Firsts(envs, Elements(envs));
    FirstsAreMembers(envs, Elements(envs));
    var rows := Summaries(envs, firsts, folder);
    var i := SortedFrom(rows, NewestFirst, k);
    f := firsts[i];
    ConversationIsInhabited(envs, f);
  }

  lemma HeadHasThread(envs: seq<Envelope>, folder: string, f: Envelope) returns (k: nat)
    requires f in Firsts(envs, Elements(envs)) && f in envs
    ensures k < |Threads(envs, folder)| && Conversation(envs, f.messageId) != []
    ensures Threads(envs, folder)[k] == Summarize(Conversation(envs, f.messageId), folder)
  {
    var firsts := Firsts(envs, Elements(envs));
    FirstsAreMembers(envs, Elements(envs));
    var rows := Summaries(envs, firsts, folder);
    var i :| 0 <= i < |firsts| && firsts[i] == f;
    ConversationIsInhabited(envs, f);
    k := SortedTo(rows, NewestFirst, i);
  }

  lemma HeadsDiffer(envs: seq<Envelope>, folder: string, i: nat, j: nat)
    requires DistinctUids(envs)
    requires forall f :: f in Firsts(envs, Elements(envs)) ==> f in envs
    requires i < j < |Firsts(envs, Elements(envs))|
    ensures Summaries(envs, Firsts(envs, Elements(envs)), folder)[i]
         != Summaries(envs, Firsts(envs, Elements(envs)), folder)[j]
  {
    var firsts := Firsts(envs, Elements(envs));
    var f, g := firsts[i], firsts[j];
    FirstsApart(envs, Elements(envs), i, j);
    ListedIffConnected(envs, f.messageId, g);
    ListedIffConnected(envs, g.messageId, g);
    Reflexive(Links(Elements(envs)), g.messageId);
    ConversationIsInhabited(envs, f);
    ConversationIsInhabited(envs, g);
    assert Summarize(Conversation(envs, f.messageId), folder).uids == Uids(Conversation(envs, f.messageId));
    assert Summarize(Conversation(envs, g.messageId), folder).uids == Uids(Conversation(envs, g.messageId));
  }

  lemma ThreadsDiffer(envs: seq<Envelope>, folder: string)
    requires DistinctUids(envs)
    ensures NoDuplicates(Threads(envs, folder))
  {
    var firsts := Firsts(envs, Elements(envs));
    FirstsAreMembers(envs, Elements(envs));
    forall i, j | 0 <= i < j < |firsts|
      ensures Summaries(envs, firsts, folder)[i] != Summaries(envs, firsts, folder)[j]
    {
      HeadsDiffer(envs, folder, i, j);
    }
    SortKeepsNoDuplicates(Summaries(envs, firsts, folder), NewestFirst);
  }

  // ---- the partition ----------------------------------------------------------------

  /** A row lists exactly the messages connected to any one of them. */
  lemma RowIsComponent(envs: seq<Envelope>, folder: string, k: nat, e: Envelope, f: Envelope)
    requires DistinctUids(envs) && e in envs && f in envs
    requires k < |Threads(envs, folder)| && e.uid in Threads(envs, folder)[k].uids
    ensures f.uid in Threads(envs, folder)[k].uids <==> Together(Elements(envs), e, f)
  {
    var links := Links(Elements(envs));
    var h := ThreadHasHead(envs, folder, k);
    ListedIffConnected(envs, h.messageId, e);
    ListedIffConnected(envs, h.messageId, f);
    if f.uid in Threads(envs, folder)[k].uids {
      Symmetric(links, h.messageId, e.messageId);
      Transitive(links, e.messageId, h.messageId, f.messageId);
    }
    if Together(Elements(envs), e, f) {
      Transitive(links, h.messageId, e.messageId, f.messageId);
    }
  }

  /** No message is lost: each one is listed in some row. */
  lemma EveryMessageIsListed(envs: seq<Envelope>, folder: string, e: Envelope) returns (k: nat)
    requires DistinctUids(envs) && e in envs
    ensures k < |Threads(envs, folder)| && e.uid in Threads(envs, folder)[k].uids
  {
    var f := FirstsCover(envs, Elements(envs), e);
    FirstsAreMembers(envs, Elements(envs));
    k := HeadHasThread(envs, folder, f);
    ListedIffConnected(envs, f.messageId, e);
  }

  /**
   * The thread list is the partition by connectedness: messages listed in rows `k` and `l` are connected exactly when
   * the rows are one. In particular no message is listed twice.
   */
  lemma Partition(envs: seq<Envelope>, folder: string, e: Envelope, f: Envelope, k: nat, l: nat)
    requires DistinctUids(envs) && e in envs && f in envs
    requires k < |Threads(envs, folder)| && e.uid in Threads(envs, folder)[k].uids
    requires l < |Threads(envs, folder)| && f.uid in Threads(envs, folder)[l].uids
    ensures k == l <==> Together(Elements(envs), e, f)
  {
    RowIsComponent(envs, folder, k, e, f);
    if Together(Elements(envs), e, f) {
      RowsThatShareAreEqual(envs, folder, f, k, l);
      ThreadsDiffer(envs, folder);
      SameElementSameIndex(Threads(envs, folder), k, l);
    }
  }

  lemma RowsThatShareAreEqual(envs: seq<Envelope>, folder: string, f: Envelope, k: nat, l: nat)
    requires DistinctUids(envs) && f in envs
    requires k < |Threads(envs, folder)| && f.uid in Threads(envs, folder)[k].uids
    requires l < |Threads(envs, folder)| && f.uid in Threads(envs, folder)[l].uids
    ensures Threads(envs, folder)[k] == Threads(envs, folder)[l]
  {
    var links := Links(Elements(envs));
    var g := ThreadHasHead(envs, folder, k);
    var h := ThreadHasHead(envs, folder, l);
    ListedIffConnected(envs, g.messageId, f);
    ListedIffConnected(envs, h.messageId, f);
    Symmetric(links, h.messageId, f.messageId);
    Transitive(links, g.messageId, f.messageId, h.messageId);
    SameComponent(links, g.messageId, h.messageId);
  }

  lemma SameComponent(links: set<(string, string)>, a: string, b: string)
    requires Connected(links, a, b)
    ensures (iset x | Connected(links, a, x)) == (iset x | Connected(links, b, x))
  {
    Symmetric(links, a, b);
    forall x
      ensures Connected(links, a, x) <==> Connected(links, b, x)
    {
      if Connected(links, a, x) {
        Transitive(links, b, a, x);
      }
      if Connected(links, b, x) {
        Transitive(links, a, b, x);
      }
    }
  }

  /** A row counts its messages, lists each once, oldest first, and carries the date of the newest. */
  lemma RowIsWellMade(envs: seq<Envelope>, folder: string, k: nat) returns (list: seq<Envelope>)
    requires DistinctUids(envs) && k < |Threads(envs, folder)|
    ensures list != [] && Ordered(list, DateOf) && NoDuplicates(list) && forall e :: e in list ==> e in envs
    ensures var t := Threads(envs, folder)[k];
      t.uids == Uids(list) && NoDuplicates(t.uids) && t.messageCount == |t.uids| && t.date == list[|list| - 1].date
  {
    var f := ThreadHasHead(envs, folder, k);
    list := Conversation(envs, f.messageId);
    ConversationIsOrdered(envs, f.messageId);
    ConversationMembers(envs, f.messageId);
  }

  /** The list shows the newest conversation first. */
  lemma RowsAreNewestFirst(envs: seq<Envelope>, folder: string, k: nat, l: nat)
    requires k < l < |Threads(envs, folder)|
    ensures Threads(envs, folder)[k].date >= Threads(envs, folder)[l].date
  {
    FirstsAreMembers(envs, Elements(envs));
    SortOrders(Summaries(envs, Firsts(envs, Elements(envs)), folder), NewestFirst);
    var threads := Threads(envs, folder);
    assert NewestFirst(threads[k]) <= NewestFirst(threads[l]);
  }

  /** Messages of one date stand in their row as they stood in the list. */
  lemma EqualDatesKeepTheirOrder(envs: seq<Envelope>, folder: string, k: nat, a: nat, b: nat, i: nat, j: nat)
    requires DistinctUids(envs) && k < |Threads(envs, folder)| && a < b < |Threads(envs, folder)[k].uids|
    requires i < |envs| && j < |envs| && envs[i].date == envs[j].date
    requires envs[i].uid == Threads(envs, folder)[k].uids[a] && envs[j].uid == Threads(envs, folder)[k].uids[b]
    ensures i < j
  {
    var h := ThreadHasHead(envs, folder, k);
    var ids, c := Component(Elements(envs), h.messageId), Conversation(envs, h.messageId);
    ConversationMembers(envs, h.messageId);
    assert c[a] in c && c[b] in c;
    SameUidSameMessage(envs, envs[i], c[a]);
    SameUidSameMessage(envs, envs[j], c[b]);
    TiesStay(Select(envs, ids), DateOf, c[a], c[b]);
    SelectPrecedes(envs, ids, c[a], c[b]);
  }

  /** Of two rows of one date that comes first which holds the message standing first in the list. */
  lemma EqualRowsKeepTheirOrder(envs: seq<Envelope>, folder: string, k: nat, l: nat) returns (i: nat)
    requires DistinctUids(envs) && k < l < |Threads(envs, folder)|
    requires Threads(envs, folder)[k].date == Threads(envs, folder)[l].date
    ensures i < |envs| && envs[i].uid in Threads(envs, folder)[k].uids
    ensures forall j :: 0 <= j <= i ==> envs[j].uid !in Threads(envs, folder)[l].uids
  {
    var all := Elements(envs);
    FirstsAreMembers(envs, all);
    var rows := Summaries(envs, Firsts(envs, all), folder);
    var a, b := TiesComeFrom(rows, NewestFirst, k, l);
    hide Threads, Firsts, Connected, Links, Summaries, SortBy, Elements;
    i := FirstsInOrder(envs, all, a, b);
    Reflexive(Links(all), envs[i].messageId);
    RowOfHeadLists(envs, folder, a, envs[i]);
    forall j | 0 <= j <= i
      ensures envs[j].uid !in Threads(envs, folder)[l].uids
    {
      RowOfHeadLists(envs, folder, b, envs[j]);
    }
  }

  lemma RowOfHeadLists(envs: seq<Envelope>, folder: string, a: nat, e: Envelope)
    requires DistinctUids(envs) && e in envs && a < |Firsts(envs, Elements(envs))|
    requires forall f :: f in Firsts(envs, Elements(envs)) ==> f in envs
    ensures var firsts := Firsts(envs, Elements(envs));
      e.uid in Summaries(envs, firsts, folder)[a].uids <==> Together(Elements(envs), e, firsts[a])
  {
    var links, f := Links(Elements(envs)), Firsts(envs, Elements(envs))[a];
    hide Connected, Links, Firsts;
    ConversationIsInhabited(envs, f);
    ListedIffConnected(envs, f.messageId, e);
    if Connected(links, f.messageId, e.messageId) {
      Symmetric(links, f.messageId, e.messageId);
    }
    if Connected(links, e.messageId, f.messageId) {
      Symmetric(links, e.messageId, f.messageId);
    }
  }

  /** More mail can merge conversations but never splits one. */
  lemma MoreMailOnlyMerges(envs: seq<Envelope>, more: seq<Envelope>, e: Envelope, f: Envelope)
    requires forall x :: x in envs ==> x in more
    requires Together(Elements(envs), e, f)
    ensures Together(Elements(more), e, f)
  {
    LinksMonotone(Elements(envs), Elements(more));
    Monotone(Links(Elements(envs)), Links(Elements(more)), e.messageId, f.messageId);
  }

  // ---- ids --------------------------------------------------------------------------

  /** The root id of a conversation is connected to it. */
  lemma RootIsConnected(envs: seq<Envelope>, id: string)
    requires AllWellFormed(envs) && Conversation(envs, id) != []
    ensures Connected(Links(Elements(envs)), id, RootId(Conversation(envs, id)))
  {
    var links, c := Links(Elements(envs)), Conversation(envs, id);
    var oldest := c[0];
    ConversationMembers(envs, id);
    assert oldest in c;
    if oldest.references != [] {
      var root := oldest.references[0];
      assert WellFormed(oldest);
      assert root in oldest.references + [oldest.inReplyTo];
      assert root in NamedIds(oldest);
      assert oldest in Elements(envs);
      assert (oldest.messageId, root) in IdLinks(Elements(envs));
      Step(links, oldest.messageId, root);
      Transitive(links, id, oldest.messageId, root);
    }
  }

  /** No two rows of a thread list share an id. */
  lemma ThreadIdsAreDistinct(envs: seq<Envelope>, folder: string, k: nat, l: nat)
    requires AllWellFormed(envs) && DistinctUids(envs) && k < l < |Threads(envs, folder)|
    ensures Threads(envs, folder)[k].id != Threads(envs, folder)[l].id
  {
    var links := Links(Elements(envs));
    var f := ThreadHasHead(envs, folder, k);
    var g := ThreadHasHead(envs, folder, l);
    if Threads(envs, folder)[k].id == Threads(envs, folder)[l].id {
      var a, b := Conversation(envs, f.messageId), Conversation(envs, g.messageId);
      ThreadIdInjective(RootId(a), RootId(b));
      RootIsConnected(envs, f.messageId);
      RootIsConnected(envs, g.messageId);
      Symmetric(links, g.messageId, RootId(b));
      Transitive(links, f.messageId, RootId(a), g.messageId);
      SameComponent(links, f.messageId, g.messageId);
      ThreadsDiffer(envs, folder);
      assert false;
    }
  }

  // ---- participants -----------------------------------------------------------------

  /** No participant is listed twice, and none that was already seen. */
  lemma {:induction false} ParticipantsAreDistinct(addrs: seq<Address>, seen: set<string>, i: nat)
    requires i < |Unseen(addrs, seen)|
    ensures AddressKey(Unseen(addrs, seen)[i]) !in seen
    ensures forall j :: 0 <= j < i ==> AddressKey(Unseen(addrs, seen)[j]) != AddressKey(Unseen(addrs, seen)[i])
  {
    if AddressKey(addrs[0]) in seen {
      ParticipantsAreDistinct(addrs[1..], seen, i);
    } else if i > 0 {
      ParticipantsAreDistinct(addrs[1..], seen + {AddressKey(addrs[0])}, i - 1);
    }
  }

  /** Everyone who wrote or received a message is a participant, under the spelling seen first. */
  lemma {:induction false} EveryoneParticipates(addrs: seq<Address>, seen: set<string>, k: nat)
    requires k < |addrs| && AddressKey(addrs[k]) !in seen
    ensures exists p :: p in Unseen(addrs, seen) && p in addrs[..k + 1] && AddressKey(p) == AddressKey(addrs[k])
  {
    if AddressKey(addrs[0]) == AddressKey(addrs[k]) {
      assert addrs[0] in addrs[..k + 1] && addrs[0] in Unseen(addrs, seen);
    } else {
      var next := if AddressKey(addrs[0]) in seen then seen else seen + {AddressKey(addrs[0])};
      EveryoneParticipates(addrs[1..], next, k - 1);
      var p :| p in Unseen(addrs[1..], next) && p in addrs[1..][..k] && AddressKey(p) == AddressKey(addrs[k]);
      assert addrs[1..][..k] == addrs[1..k + 1];
      assert p in addrs[..k + 1];
    }
  }
}
