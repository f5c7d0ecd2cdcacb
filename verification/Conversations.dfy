/**
 * What grouping a list of messages into conversations means: the connected components of the id and subject links,
 * each summarised oldest message first, the list newest conversation first.
 */
module Conversations {
  import opened Text
  import opened Graph
  import opened Sorting
  import opened Envelopes
  import opened ThreadIds

  datatype ThreadSummary = ThreadSummary(
    id: string,
    folder: string,
    subject: string,
    participants: seq<Address>,
    snippet: string,
    date: int,
    unread: bool,
    flagged: bool,
    answered: bool,
    hasAttachments: bool,
    messageCount: nat,
    uids: seq<nat>)

  function DateOf(e: Envelope): int {
    e.date
  }

  function NewestFirst(t: ThreadSummary): int {
    -t.date
  }

  // ---- components -------------------------------------------------------------------

  /** The ids connected to `id` by the links of `envs`. */
  ghost function Component(envs: set<Envelope>, id: string): iset<string> {
    iset x: string | Connected(Links(envs), id, x)
  }

  /** Two messages belong to one conversation. */
  ghost predicate Together(envs: set<Envelope>, e: Envelope, f: Envelope) {
    Connected(Links(envs), e.messageId, f.messageId)
  }

  /** The messages whose id is in `ids`, in their order. */
  ghost function Select(envs: seq<Envelope>, ids: iset<string>): seq<Envelope> {
    if envs == [] then []
    else
      var last := envs[|envs| - 1];
      Select(envs[..|envs| - 1], ids) + (if last.messageId in ids then [last] else [])
  }

  /** The messages connected to no earlier message: one per conversation, in order of appearance. */
  ghost function Firsts(envs: seq<Envelope>, all: set<Envelope>): seq<Envelope> {
    if envs == [] then []
    else
      var before, last := envs[..|envs| - 1], envs[|envs| - 1];
      Firsts(before, all) + (if exists f :: f in before && Together(all, f, last) then [] else [last])
  }

  /** The conversation around `id`, oldest message first. */
  ghost function Conversation(envs: seq<Envelope>, id: string): seq<Envelope> {
    SortBy(Select(envs, Component(Elements(envs), id)), DateOf)
  }

  // ---- summaries --------------------------------------------------------------------

  function Uids(list: seq<Envelope>): (r: seq<nat>)
    ensures |r| == |list|
    ensures forall i :: 0 <= i < |list| ==> r[i] == list[i].uid
  {
    seq(|list|, i requires 0 <= i < |list| => list[i].uid)
  }

  function RootId(list: seq<Envelope>): string
    requires list != []
  {
    if list[0].references != [] then list[0].references[0] else list[0].messageId
  }

  function AddressesOf(e: Envelope): seq<Address> {
    (if e.from.Some? then [e.from.value] else []) + e.to
  }

  /** Every address of the messages from `n` on, the latest of them first, senders before recipients. */
  function AddressesNewestFirst(list: seq<Envelope>, n: nat := 0): seq<Address>
    requires n <= |list|
    decreases |list| - n
  {
    if n == |list| then [] else AddressesNewestFirst(list, n + 1) + AddressesOf(list[n])
  }

  function AddressKey(a: Address): string {
    Lower(a.address)
  }

  /** The addresses not in `seen`, each only where it first appears; letter case does not matter. */
  function Unseen(addrs: seq<Address>, seen: set<string>): seq<Address> {
    if addrs == [] then []
    else if AddressKey(addrs[0]) in seen then Unseen(addrs[1..], seen)
    else [addrs[0]] + Unseen(addrs[1..], seen + {AddressKey(addrs[0])})
  }

  function SubjectOf(newest: Envelope, oldest: Envelope): string {
    if newest.subject != "" then newest.subject
    else if oldest.subject != "" then oldest.subject
    else "(no subject)"
  }

  /** The row shown for a conversation given oldest message first. */
  function Summarize(list: seq<Envelope>, folder: string): ThreadSummary
    requires list != []
  {
    var newest, oldest := list[|list| - 1], list[0];
    ThreadSummary(
      ThreadIdFor(RootId(list)),
      folder,
      SubjectOf(newest, oldest),
      Unseen(AddressesNewestFirst(list), {}),
      newest.snippet,
      newest.date,
      exists e :: e in list && "\\Seen" !in e.flags,
      exists e :: e in list && "\\Flagged" in e.flags,
      "\\Answered" in newest.flags,
      exists e :: e in list && e.hasAttachments,
      |list|,
      Uids(list))
  }

  /** One summary per conversation, in order of appearance. */
  ghost function Summaries(envs: seq<Envelope>, firsts: seq<Envelope>, folder: string): (r: seq<ThreadSummary>)
    requires forall f :: f in firsts ==> f in envs
    ensures |r| == |firsts|
  {
    seq(|firsts|, i requires 0 <= i < |firsts| =>
      ConversationIsInhabited(envs, firsts[i]);
      Summarize(Conversation(envs, firsts[i].messageId), folder))
  }

  /** The whole thread list of the messages. */
  ghost function Threads(envs: seq<Envelope>, folder: string): seq<ThreadSummary> {
    FirstsAreMembers(envs, Elements(envs));
    SortBy(Summaries(envs, Firsts(envs, Elements(envs)), folder), NewestFirst)
  }

  // ---- basic facts ------------------------------------------------------------------

  lemma {:induction false} SelectMembers(envs: seq<Envelope>, ids: iset<string>)
    ensures forall e :: e in Select(envs, ids) <==> e in envs && e.messageId in ids
    ensures |Select(envs, ids)| <= |envs|
  {
    if envs != [] {
      var before, last := envs[..|envs| - 1], envs[|envs| - 1];
      SelectMembers(before, ids);
      assert envs == before + [last];
    }
  }

  lemma {:induction false} SelectKeepsDistinct(envs: seq<Envelope>, ids: iset<string>)
    requires DistinctUids(envs)
    ensures NoDuplicates(Select(envs, ids))
  {
    if envs != [] {
      var before, last := envs[..|envs| - 1], envs[|envs| - 1];
      SelectKeepsDistinct(before, ids);
      SelectMembers(before, ids);
    }
  }

  lemma {:induction false} SelectPrecedes(envs: seq<Envelope>, ids: iset<string>, e: Envelope, f: Envelope)
    requires Precedes(Select(envs, ids), e, f)
    ensures Precedes(envs, e, f)
  {
    var before, last := envs[..|envs| - 1], envs[|envs| - 1];
    var chosen := Select(envs, ids);
    var i, j :| 0 <= i < j < |chosen| && chosen[i] == e && chosen[j] == f;
    if j < |Select(before, ids)| {
      SelectPrecedes(before, ids, e, f);
      var k, l :| 0 <= k < l < |before| && before[k] == e && before[l] == f;
      assert envs[k] == e && envs[l] == f;
    } else {
      SelectMembers(before, ids);
      assert Select(before, ids)[i] == e;
      var k :| 0 <= k < |before| && before[k] == e;
      assert envs[k] == e && envs[|before|] == f;
    }
  }

  lemma {:induction false} FirstsAreMembers(envs: seq<Envelope>, all: set<Envelope>)
    ensures forall f :: f in Firsts(envs, all) ==> f in envs
  {
    if envs != [] {
      var before, last := envs[..|envs| - 1], envs[|envs| - 1];
      FirstsAreMembers(before, all);
      assert envs == before + [last];
    }
  }

  lemma ConversationMembers(envs: seq<Envelope>, id: string)
    ensures forall e :: e in Conversation(envs, id) <==> e in envs && Connected(Links(Elements(envs)), id, e.messageId)
  {
    SelectMembers(envs, Component(Elements(envs), id));
    SortPermutes(Select(envs, Component(Elements(envs), id)), DateOf);
  }

  lemma ConversationIsInhabited(envs: seq<Envelope>, e: Envelope)
    requires e in envs
    ensures e in Conversation(envs, e.messageId)
    ensures Conversation(envs, e.messageId) != []
  {
    Reflexive(Links(Elements(envs)), e.messageId);
    ConversationMembers(envs, e.messageId);
  }

  /** Conversations list their messages oldest first, and with distinct UIDs no message twice. */
  lemma ConversationIsOrdered(envs: seq<Envelope>, id: string)
    ensures Ordered(Conversation(envs, id), DateOf)
    ensures DistinctUids(envs) ==> NoDuplicates(Conversation(envs, id)) && NoDuplicates(Uids(Conversation(envs, id)))
  {
    var selected := Select(envs, Component(Elements(envs), id));
    SortOrders(selected, DateOf);
    if DistinctUids(envs) {
      SelectKeepsDistinct(envs, Component(Elements(envs), id));
      SortKeepsNoDuplicates(selected, DateOf);
      ConversationMembers(envs, id);
      var c := Conversation(envs, id);
      forall i, j | 0 <= i < j < |c|
        ensures Uids(c)[i] != Uids(c)[j]
      {
        assert c[i] in c && c[j] in c;
      }
    }
  }

  /** Every message is together with one of the conversation heads. */
  lemma {:induction false} FirstsCover(envs: seq<Envelope>, all: set<Envelope>, e: Envelope) returns (f: Envelope)
    requires e in envs
    ensures f in Firsts(envs, all) && Together(all, f, e)
  {
    var before, last := envs[..|envs| - 1], envs[|envs| - 1];
    if e in before {
      f := FirstsCover(before, all, e);
    } else {
      assert e == last;
      if g :| g in before && Together(all, g, last) {
        f := FirstsCover(before, all, g);
        Transitive(Links(all), f.messageId, g.messageId, last.messageId);
      } else {
        f := last;
        Reflexive(Links(all), last.messageId);
      }
    }
  }

  /** An earlier head stands in the list before every message of a later one's conversation. */
  lemma {:induction false} FirstsInOrder(envs: seq<Envelope>, all: set<Envelope>, a: nat, b: nat) returns (i: nat)
    requires a < b < |Firsts(envs, all)|
    ensures i < |envs| && envs[i] == Firsts(envs, all)[a]
    ensures forall j :: 0 <= j <= i ==> !Together(all, envs[j], Firsts(envs, all)[b])
  {
    hide Together;
    var before, last := envs[..|envs| - 1], envs[|envs| - 1];
    if b < |Firsts(before, all)| {
      i := FirstsInOrder(before, all, a, b);
    } else {
      FirstsAreMembers(before, all);
      assert Firsts(before, all)[a] in before;
      i :| 0 <= i < |before| && before[i] == Firsts(before, all)[a];
      forall j | 0 <= j <= i
        ensures !Together(all, envs[j], last)
      {
        assert before[j] in before;
      }
    }
  }

  /** No two conversation heads are together. */
  lemma {:induction false} FirstsApart(envs: seq<Envelope>, all: set<Envelope>, i: nat, j: nat)
    requires i < j < |Firsts(envs, all)|
    ensures !Together(all, Firsts(envs, all)[i], Firsts(envs, all)[j])
  {
    var before, last := envs[..|envs| - 1], envs[|envs| - 1];
    if j < |Firsts(before, all)| {
      FirstsApart(before, all, i, j);
    } else {
      FirstsAreMembers(before, all);
      assert Firsts(before, all)[i] in before;
    }
  }
}
