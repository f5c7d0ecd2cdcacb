/** What the fields of a thread list row say of the messages the row lists. */
module RowFields {
  import opened Text
  import opened Graph
  import opened Sorting
  import opened Envelopes
  import opened ThreadIds
  import opened Conversations
  import opened ConversationLaws

  /** Some message the row lists has the property. */
  ghost predicate AnyListed(envs: seq<Envelope>, t: ThreadSummary, p: Envelope -> bool) {
    exists e :: e in envs && e.uid in t.uids && p(e)
  }

  /** The messages behind a row, oldest first. */
  lemma RowList(envs: seq<Envelope>, folder: string, k: nat) returns (list: seq<Envelope>)
    requires DistinctUids(envs) && k < |Threads(envs, folder)|
    ensures list != [] && Threads(envs, folder)[k] == Summarize(list, folder)
    ensures forall e :: e in list ==> e in envs
    ensures forall e :: e in envs && e.uid in Threads(envs, folder)[k].uids ==> e in list
  {
    var f := ThreadHasHead(envs, folder, k);
    list := Conversation(envs, f.messageId);
    ConversationMembers(envs, f.messageId);
    forall e | e in envs && e.uid in Threads(envs, folder)[k].uids
      ensures e in list
    {
      ListedIffConnected(envs, f.messageId, e);
    }
  }

  /**
   * Subject, snippet, date and answered mark of a row are those of the newest message, the id is made from the oldest, and
   * a flag is set when any message has it.
   */
  lemma RowShows(envs: seq<Envelope>, folder: string, k: nat) returns (newest: Envelope, oldest: Envelope)
    requires DistinctUids(envs) && k < |Threads(envs, folder)|
    ensures var t := Threads(envs, folder)[k];
      && newest in envs && oldest in envs && t.uids != []
      && newest.uid == t.uids[|t.uids| - 1] && oldest.uid == t.uids[0] && t.folder == folder
      && t.id == ThreadIdFor(if oldest.references != [] then oldest.references[0] else oldest.messageId)
      && t.subject == (if newest.subject != "" then newest.subject
                       else if oldest.subject != "" then oldest.subject else "(no subject)")
      && t.snippet == newest.snippet && t.date == newest.date && (t.answered <==> "\\Answered" in newest.flags)
    ensures var t := Threads(envs, folder)[k];
      && (t.unread <==> AnyListed(envs, t, (e: Envelope) => "\\Seen" !in e.flags))
      && (t.flagged <==> AnyListed(envs, t, (e: Envelope) => "\\Flagged" in e.flags))
      && (t.hasAttachments <==> AnyListed(envs, t, (e: Envelope) => e.hasAttachments))
  {
    var list := RowList(envs, folder, k);
    newest, oldest := list[|list| - 1], list[0];
    hide Threads, ThreadIdFor, AddressesNewestFirst, Unseen;
    var t := Threads(envs, folder)[k];
    forall e | e in list
      ensures e.uid in t.uids
    {
      var i :| 0 <= i < |list| && list[i] == e;
      assert t.uids[i] == e.uid;
    }
  }

  // ---- participants -------------------------------------------------------------------------

  /** The address stands in the message: at place 0 the sender, behind it the recipients. */
  predicate StandsAt(e: Envelope, x: nat, a: Address) {
    (x == 0 && e.from == Some(a)) || (1 <= x <= |e.to| && e.to[x - 1] == a)
  }

  lemma StandsIffListed(e: Envelope, a: Address)
    ensures a in AddressesOf(e) <==> exists x: nat :: StandsAt(e, x, a)
  {
    if a in AddressesOf(e) && e.from != Some(a) {
      var i :| 0 <= i < |e.to| && e.to[i] == a;
      assert StandsAt(e, i + 1, a);
    }
    if e.from == Some(a) {
      assert StandsAt(e, 0, a);
    }
  }

  /** The participant that is met first comes first: before `x` nobody is met under the key of the later one. */
  lemma {:induction false} UnseenInOrder(addrs: seq<Address>, seen: set<string>, i: nat, j: nat) returns (x: nat)
    requires i < j < |Unseen(addrs, seen)|
    ensures x < |addrs| && addrs[x] == Unseen(addrs, seen)[i]
    ensures forall y :: 0 <= y <= x ==> AddressKey(addrs[y]) != AddressKey(Unseen(addrs, seen)[j])
  {
    ParticipantsAreDistinct(addrs, seen, j);
    if AddressKey(addrs[0]) in seen || i > 0 {
      var next := if AddressKey(addrs[0]) in seen then seen else seen + {AddressKey(addrs[0])};
      var at := if AddressKey(addrs[0]) in seen then 0 else 1;
      assert at == 1 ==> Unseen(addrs, seen)[0] == addrs[0];
      x := UnseenInOrder(addrs[1..], next, i - at, j - at);
      forall y | 0 <= y <= x + 1
        ensures AddressKey(addrs[y]) != AddressKey(Unseen(addrs, seen)[j])
      {
        assert y > 0 ==> addrs[y] == addrs[1..][y - 1];
      }
      x := x + 1;
    } else {
      x := 0;
    }
  }

  /** Whoever stands in a message after `m`, or in it up to the place, is in `met`. */
  ghost predicate AllMet(list: seq<Envelope>, m: nat, place: nat, met: seq<Address>) {
    forall l, p: nat, a :: m <= l < |list| && (l > m || p <= place) && StandsAt(list[l], p, a) ==> a in met
  }

  /** The address at `x` of a message's own, and everybody standing up to there. */
  lemma OwnPlace(e: Envelope, x: nat) returns (place: nat)
    requires x < |AddressesOf(e)|
    ensures StandsAt(e, place, AddressesOf(e)[x])
    ensures forall p: nat, a :: p <= place && StandsAt(e, p, a) ==> a in AddressesOf(e)[..x + 1]
  {
    place := x + if e.from.Some? then 0 else 1;
    forall p: nat, a | p <= place && StandsAt(e, p, a)
      ensures a in AddressesOf(e)[..x + 1]
    {
      assert AddressesOf(e)[..x + 1][p - if e.from.Some? then 0 else 1] == a;
    }
  }

  /** Where an address of the list comes from: a place in a message, with every later message met before. */
  lemma {:induction false} MetAt(list: seq<Envelope>, n: nat, x: nat) returns (m: nat, place: nat)
    requires n <= |list| && x < |AddressesNewestFirst(list, n)|
    ensures n <= m < |list| && StandsAt(list[m], place, AddressesNewestFirst(list, n)[x])
    ensures AllMet(list, m, place, AddressesNewestFirst(list, n)[..x + 1])
    decreases |list| - n
  {
    var later, own, all := AddressesNewestFirst(list, n + 1), AddressesOf(list[n]), AddressesNewestFirst(list, n);
    assert all == later + own;
    if x < |later| {
      hide *;
      m, place := MetAt(list, n + 1, x);
      assert all[..x + 1] == later[..x + 1];
    } else {
      hide AddressesNewestFirst, AddressesOf, StandsAt;
      m := n;
      place := OwnPlace(list[n], x - |later|);
      assert all[..x + 1] == later + own[..x - |later| + 1];
      forall l, p: nat, a | m <= l < |list| && (l > m || p <= place) && StandsAt(list[l], p, a)
        ensures a in all[..x + 1]
      {
        if l > m {
          LaterIsMet(list, n + 1, l, p, a);
        }
      }
    }
  }

  lemma {:induction false} LaterIsMet(list: seq<Envelope>, n: nat, l: nat, p: nat, a: Address)
    requires n <= l < |list| && StandsAt(list[l], p, a)
    ensures a in AddressesNewestFirst(list, n)
    decreases |list| - n
  {
    if n == l {
      StandsIffListed(list[l], a);
    } else {
      LaterIsMet(list, n + 1, l, p, a);
    }
  }

  /** Someone of this key stands in a message the row lists. */
  ghost predicate Takes(envs: seq<Envelope>, t: ThreadSummary, key: string) {
    exists e, x: nat, a :: e in envs && e.uid in t.uids && StandsAt(e, x, a) && AddressKey(a) == key
  }

  lemma TakingIsShown(envs: seq<Envelope>, list: seq<Envelope>, e: Envelope, x: nat, a: Address)
    requires e in list && StandsAt(e, x, a)
    ensures exists p :: p in Unseen(AddressesNewestFirst(list), {}) && AddressKey(p) == AddressKey(a)
  {
    hide Unseen, AddressKey, AddressesNewestFirst, StandsAt;
    var addrs := AddressesNewestFirst(list);
    var l: nat :| l < |list| && list[l] == e;
    LaterIsMet(list, 0, l, x, a);
    var y :| 0 <= y < |addrs| && addrs[y] == a;
    EveryoneParticipates(addrs, {}, y);
  }

  lemma ShownStands(list: seq<Envelope>, p: Address) returns (m: nat, place: nat)
    requires p in Unseen(AddressesNewestFirst(list), {})
    ensures m < |list| && StandsAt(list[m], place, p)
  {
    hide AddressesNewestFirst, StandsAt;
    var addrs := AddressesNewestFirst(list);
    UnseenAreAmong(addrs, {}, p);
    var y: nat :| y < |addrs| && addrs[y] == p;
    m, place := MetAt(list, 0, y);
  }

  /** The participants of a row are everyone who stands in one of its messages, each once. */
  lemma RowParticipants(envs: seq<Envelope>, folder: string, k: nat, key: string)
    requires DistinctUids(envs) && k < |Threads(envs, folder)|
    ensures var t := Threads(envs, folder)[k];
      && (Takes(envs, t, key) <==> exists p :: p in t.participants && AddressKey(p) == key)
      && forall i, j :: 0 <= i < j < |t.participants| ==> AddressKey(t.participants[i]) != AddressKey(t.participants[j])
  {
    var list := RowList(envs, folder, k);
    var t, addrs := Threads(envs, folder)[k], AddressesNewestFirst(list);
    assert t.participants == Unseen(addrs, {}) && t.uids == Uids(list);
    hide Threads, Unseen, AddressKey, AddressesNewestFirst, Summarize, StandsAt, Envelopes.DistinctUids;
    forall i, j | 0 <= i < j < |t.participants|
      ensures AddressKey(t.participants[i]) != AddressKey(t.participants[j])
    {
      ParticipantsAreDistinct(addrs, {}, j);
    }
    if Takes(envs, t, key) {
      var e, x: nat, a :| e in envs && e.uid in t.uids && StandsAt(e, x, a) && AddressKey(a) == key;
      TakingIsShown(envs, list, e, x, a);
    }
    if p :| p in t.participants && AddressKey(p) == key {
      var m, place := ShownStands(list, p);
      assert t.uids[m] == list[m].uid && list[m] in envs;
    }
  }

  lemma {:induction false} UnseenAreAmong(addrs: seq<Address>, seen: set<string>, p: Address)
    requires p in Unseen(addrs, seen)
    ensures p in addrs
  {
    if AddressKey(addrs[0]) in seen {
      UnseenAreAmong(addrs[1..], seen, p);
    } else if p != addrs[0] {
      UnseenAreAmong(addrs[1..], seen + {AddressKey(addrs[0])}, p);
    }
  }

  /**
   * They come newest message first, in each message the sender first: the earlier of two participants stands at some place
   * so that neither a later message nor an earlier place has anyone under the key of the other.
   */
  lemma ParticipantsInOrder(envs: seq<Envelope>, folder: string, k: nat, i: nat, j: nat)
    returns (list: seq<Envelope>, m: nat, place: nat)
    requires DistinctUids(envs) && k < |Threads(envs, folder)| && i < j < |Threads(envs, folder)[k].participants|
    ensures Threads(envs, folder)[k].uids == Uids(list) && forall e :: e in list ==> e in envs
    ensures m < |list| && StandsAt(list[m], place, Threads(envs, folder)[k].participants[i])
    ensures forall l, p: nat, a :: m <= l < |list| && (l > m || p <= place) && StandsAt(list[l], p, a) ==>
      AddressKey(a) != AddressKey(Threads(envs, folder)[k].participants[j])
  {
    list := RowList(envs, folder, k);
    var addrs := AddressesNewestFirst(list);
    hide Threads, Unseen, AddressKey, AddressesNewestFirst, StandsAt;
    var x := UnseenInOrder(addrs, {}, i, j);
    m, place := MetAt(list, 0, x);
  }
}
