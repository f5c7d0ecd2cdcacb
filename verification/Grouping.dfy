/** The grouping algorithm itself: a forest over ids, the subject pass, and one bucket of messages per root. */
module Grouping {
  import opened Text
  import opened Graph
  import opened Sorting
  import opened Envelopes
  import opened Forest
  import opened Conversations
  import opened SubjectFallback
  import ThreadIds

  // ---- links ------------------------------------------------------------------------

  ghost function LinksTo(id: string, named: seq<string>): set<(string, string)> {
    if named == [] then {} else LinksTo(id, named[..|named| - 1]) + {(id, named[|named| - 1])}
  }

  lemma {:induction false} LinksToMembers(id: string, named: seq<string>, link: (string, string))
    ensures link in LinksTo(id, named) <==> link.0 == id && link.1 in named
  {
    if named != [] {
      LinksToMembers(id, named[..|named| - 1], link);
      assert named == named[..|named| - 1] + [named[|named| - 1]];
    }
  }

  lemma IdLinksExtend(before: seq<Envelope>, e: Envelope)
    ensures IdLinks(Elements(before + [e])) == IdLinks(Elements(before)) + LinksTo(e.messageId, NamedIds(e))
  {
    var all := before + [e];
    forall link | link in IdLinks(Elements(all))
      ensures link in IdLinks(Elements(before)) + LinksTo(e.messageId, NamedIds(e))
    {
      var f, id :| f in Elements(all) && id in NamedIds(f) && link == (f.messageId, id);
      if f == e {
        LinksToMembers(e.messageId, NamedIds(e), link);
      } else {
        assert f in Elements(before);
      }
    }
    forall link | link in IdLinks(Elements(before)) + LinksTo(e.messageId, NamedIds(e))
      ensures link in IdLinks(Elements(all))
    {
      LinksToMembers(e.messageId, NamedIds(e), link);
      if link in IdLinks(Elements(before)) {
        var f, id :| f in Elements(before) && id in NamedIds(f) && link == (f.messageId, id);
        assert f in Elements(all);
      } else {
        assert e in Elements(all);
      }
    }
  }

  /** One message joins the ids it names. */
  method JoinNamed(e: Envelope, forest: IdForest)
    requires WellFormed(e) && forest.Valid()
    modifies forest
    ensures forest.Valid()
    ensures forest.joined == old(forest.joined) + LinksTo(e.messageId, NamedIds(e))
    ensures old(forest.parent.Keys) + {e.messageId} <= forest.parent.Keys
  {
    forest.Touch(e.messageId);
    var named := NamedIds(e);
    for k := 0 to |named|
      invariant forest.Valid()
      invariant old(forest.parent.Keys) + {e.messageId} <= forest.parent.Keys
      invariant forest.joined == old(forest.joined) + LinksTo(e.messageId, named[..k])
    {
      assert named[k] in named;
      forest.Touch(named[k]);
      forest.Union(e.messageId, named[k]);
      assert named[..k + 1][..k] == named[..k];
    }
    assert named[..|named|] == named;
  }

  /** First pass: every message joins the ids it names. */
  method JoinById(envs: seq<Envelope>) returns (forest: IdForest)
    requires AllWellFormed(envs)
    ensures fresh(forest) && forest.Valid()
    ensures forest.joined == IdLinks(Elements(envs))
    ensures forall e :: e in envs ==> e.messageId in forest.parent
  {
    forest := new IdForest();
    for i := 0 to |envs|
      invariant fresh(forest) && forest.Valid()
      invariant forest.joined == IdLinks(Elements(envs[..i]))
      invariant forall j :: 0 <= j < i ==> envs[j].messageId in forest.parent.Keys
    {
      JoinNamed(envs[i], forest);
      IdLinksExtend(envs[..i], envs[i]);
      assert envs[..i + 1] == envs[..i] + [envs[i]];
    }
    assert envs[..|envs|] == envs;
  }

  /** The map of last messages per key agrees with the entries passed so far. */
  ghost predicate Remembers(last: map<string, Envelope>, tags: seq<Tag>) {
    forall key {:trigger LastWithKey(tags, key)} ::
      LastWithKey(tags, key) == if key in last then Some(TagOf(last[key])) else None
  }

  lemma RememberingOneMore(last: map<string, Envelope>, tags: seq<Tag>, e: Envelope)
    requires Remembers(last, tags)
    ensures Remembers(if SubjectKey(e).Some? then last[SubjectKey(e).value := e] else last, tags + [TagOf(e)])
  {
    var next := if SubjectKey(e).Some? then last[SubjectKey(e).value := e] else last;
    var more := tags + [TagOf(e)];
    assert more[..|more| - 1] == tags;
    forall key
      ensures LastWithKey(more, key) == if key in next then Some(TagOf(next[key])) else None
    {
      assert LastWithKey(tags, key) == if key in last then Some(TagOf(last[key])) else None;
    }
  }

  ghost predicate Within(last: map<string, Envelope>, ids: set<string>) {
    forall key :: key in last ==> last[key].messageId in ids
  }

  lemma NothingPassed(ids: set<string>)
    ensures Remembers(map[], []) && Within(map[], ids) && PassLinks([]) == {}
  {
  }

  /** One step of the second pass: `e` joins the last message of its key when that is close, and becomes the last. */
  method JoinLast(e: Envelope, last: map<string, Envelope>, ghost tags: seq<Tag>, forest: IdForest)
    returns (next: map<string, Envelope>)
    requires forest.Valid() && e.messageId in forest.parent
    requires Remembers(last, tags) && Within(last, forest.parent.Keys)
    modifies forest
    ensures forest.Valid() && forest.parent.Keys == old(forest.parent.Keys)
    ensures forest.joined == old(forest.joined) + LinkAt(tags, TagOf(e))
    ensures Remembers(next, tags + [TagOf(e)]) && Within(next, forest.parent.Keys)
  {
    next := last;
    var key := SubjectKey(e);
    RememberingOneMore(last, tags, e);
    if key.Some? {
      assert LastWithKey(tags, key.value) == if key.value in last then Some(TagOf(last[key.value])) else None;
      if key.value in last && e.date - last[key.value].date <= SUBJECT_FALLBACK_GAP_MS {
        forest.Union(e.messageId, last[key.value].messageId);
      }
      next := last[key.value := e];
    }
  }

  /** Second pass: unlinked messages of one subject and sender, oldest first, join the one before when it is close. */
  method JoinBySubject(envs: seq<Envelope>, forest: IdForest)
    requires forest.Valid()
    requires forall e :: e in envs ==> e.messageId in forest.parent
    modifies forest
    ensures forest.Valid() && forest.parent.Keys == old(forest.parent.Keys)
    ensures forest.joined == old(forest.joined) + FallbackLinks(envs)
  {
    hide SubjectKey, LinkAt, IdForest.Valid, TagOf, Remembers, Within, PassLinks;
    var sorted := SortBy(envs, DateOf);
    SortPermutes(envs, DateOf);
    ghost var tags := Tags(sorted);
    var lastBySubject: map<string, Envelope> := map[];
    NothingPassed(forest.parent.Keys);
    assert tags[..0] == [];
    for j := 0 to |sorted|
      invariant forest.Valid() && forest.parent.Keys == old(forest.parent.Keys)
      invariant forest.joined == old(forest.joined) + PassLinks(tags[..j])
      invariant Remembers(lastBySubject, tags[..j]) && Within(lastBySubject, forest.parent.Keys)
    {
      assert sorted[j] in envs;
      PassStep(tags, j);
      lastBySubject := JoinLast(sorted[j], lastBySubject, tags[..j], forest);
    }
    assert tags[..|sorted|] == tags;
  }

  // ---- participants -----------------------------------------------------------------

  ghost function Keys(addrs: seq<Address>): set<string> {
    set a | a in addrs :: AddressKey(a)
  }

  lemma {:induction false} UnseenAppend(a: seq<Address>, b: seq<Address>, seen: set<string>)
    ensures Unseen(a + b, seen) == Unseen(a, seen) + Unseen(b, seen + Keys(a))
  {
    if a == [] {
      assert a + b == b;
      assert seen + Keys(a) == seen;
    } else {
      assert (a + b)[1..] == a[1..] + b;
      var next := if AddressKey(a[0]) in seen then seen else seen + {AddressKey(a[0])};
      UnseenAppend(a[1..], b, next);
      assert a == [a[0]] + a[1..];
      assert next + Keys(a[1..]) == seen + Keys(a);
    }
  }

  /** Adds the addresses not seen yet. */
  method AddUnseen(addrs: seq<Address>, before: seq<Address>, known: set<string>)
    returns (participants: seq<Address>, seen: set<string>)
    ensures participants == before + Unseen(addrs, known)
    ensures seen == known + Keys(addrs)
  {
    participants, seen := before, known;
    for k := 0 to |addrs|
      invariant participants == before + Unseen(addrs[..k], known)
      invariant seen == known + Keys(addrs[..k])
    {
      assert addrs[..k + 1] == addrs[..k] + [addrs[k]];
      UnseenAppend(addrs[..k], [addrs[k]], known);
      if AddressKey(addrs[k]) !in seen {
        seen := seen + {AddressKey(addrs[k])};
        participants := participants + [addrs[k]];
      }
    }
    assert addrs[..|addrs|] == addrs;
  }

  /** Every address of the conversation once, newest message first. */
  method Participants(list: seq<Envelope>) returns (participants: seq<Address>)
    ensures participants == Unseen(AddressesNewestFirst(list), {})
  {
    var seen: set<string> := {};
    participants := [];
    for i := |list| downto 0
      invariant participants == Unseen(AddressesNewestFirst(list, i), {})
      invariant seen == Keys(AddressesNewestFirst(list, i))
    {
      var addrs := AddressesOf(list[i]);
      UnseenAppend(AddressesNewestFirst(list, i + 1), addrs, {});
      assert {} + seen == seen;
      participants, seen := AddUnseen(addrs, participants, seen);
    }
  }

  // ---- buckets ----------------------------------------------------------------------

  ghost predicate Agrees(rep: map<string, string>, all: set<Envelope>, e: Envelope, f: Envelope) {
    e.messageId in rep && f.messageId in rep && (rep[e.messageId] == rep[f.messageId] <==> Together(all, e, f))
  }

  /** Equal roots say exactly that two of the messages belong together. */
  ghost predicate Decides(rep: map<string, string>, envs: seq<Envelope>, all: set<Envelope>) {
    forall e, f {:trigger Agrees(rep, all, e, f)} :: e in envs && f in envs ==> Agrees(rep, all, e, f)
  }

  /** Bucket number `k` has the root of conversation head `f` and holds exactly its messages so far. */
  ghost predicate BucketFor(envs: seq<Envelope>, all: set<Envelope>, rep: map<string, string>, f: Envelope,
                            root: string, groups: map<string, seq<Envelope>>)
  {
    && f in envs && f.messageId in rep && root == rep[f.messageId]
    && root in groups && groups[root] == Select(envs, Component(all, f.messageId))
  }

  /** A bucket per conversation, in order of first use: `order` lists the roots, `groups` their messages. */
  ghost predicate Bucketed(envs: seq<Envelope>, all: set<Envelope>, rep: map<string, string>,
                           order: seq<string>, groups: map<string, seq<Envelope>>)
  {
    var firsts := Firsts(envs, all);
    && |order| == |firsts|
    && (forall r :: r in groups ==> r in order)
    && (forall k :: 0 <= k < |order| ==> BucketFor(envs, all, rep, firsts[k], order[k], groups))
  }

  ghost function AddToBucket(groups: map<string, seq<Envelope>>, root: string, e: Envelope): map<string, seq<Envelope>> {
    groups[root := (if root in groups then groups[root] else []) + [e]]
  }

  lemma SelectMore(before: seq<Envelope>, e: Envelope, ids: iset<string>)
    ensures Select(before + [e], ids) == Select(before, ids) + (if e.messageId in ids then [e] else [])
  {
    assert (before + [e])[..|before|] == before;
  }

  lemma FirstsKnown(before: seq<Envelope>, e: Envelope, all: set<Envelope>, f: Envelope)
    requires f in before && Together(all, f, e)
    ensures Firsts(before + [e], all) == Firsts(before, all)
  {
    assert (before + [e])[..|before|] == before;
  }

  lemma FirstsNew(before: seq<Envelope>, e: Envelope, all: set<Envelope>)
    requires forall f :: f in before ==> !Together(all, f, e)
    ensures Firsts(before + [e], all) == Firsts(before, all) + [e]
  {
    assert (before + [e])[..|before|] == before;
  }

  /** A message of a conversation met before goes to that conversation's bucket. */
  lemma KnownRoot(before: seq<Envelope>, e: Envelope, all: set<Envelope>, rep: map<string, string>,
                  order: seq<string>, groups: map<string, seq<Envelope>>)
    requires Decides(rep, before + [e], all) && Bucketed(before, all, rep, order, groups)
    requires e.messageId in rep && rep[e.messageId] in groups
    ensures Bucketed(before + [e], all, rep, order, AddToBucket(groups, rep[e.messageId], e))
  {
    hide Connected, Firsts, Select, Links;
    var more, root, firsts := before + [e], rep[e.messageId], Firsts(before, all);
    var next := AddToBucket(groups, root, e);
    var k :| 0 <= k < |order| && order[k] == root;
    assert BucketFor(before, all, rep, firsts[k], order[k], groups);
    assert Agrees(rep, all, firsts[k], e);
    FirstsKnown(before, e, all, firsts[k]);
    forall l | 0 <= l < |order|
      ensures BucketFor(more, all, rep, firsts[l], order[l], next)
    {
      assert BucketFor(before, all, rep, firsts[l], order[l], groups);
      SelectMore(before, e, Component(all, firsts[l].messageId));
      assert Agrees(rep, all, firsts[l], e);
    }
  }

  /** A message together with no earlier one opens a bucket. */
  lemma NewRoot(before: seq<Envelope>, e: Envelope, all: set<Envelope>, rep: map<string, string>,
                order: seq<string>, groups: map<string, seq<Envelope>>)
    requires Decides(rep, before + [e], all) && Bucketed(before, all, rep, order, groups)
    requires e in all && e.messageId in rep && rep[e.messageId] !in groups
    ensures Bucketed(before + [e], all, rep, order + [rep[e.messageId]], AddToBucket(groups, rep[e.messageId], e))
  {
    hide Connected, Firsts, Select, Links;
    var more, root, firsts := before + [e], rep[e.messageId], Firsts(before, all);
    var next := AddToBucket(groups, root, e);
    forall f | f in before
      ensures !Together(all, f, e) && !Together(all, e, f)
    {
      var g := FirstsCover(before, all, f);
      FirstsAreMembers(before, all);
      var k :| 0 <= k < |firsts| && firsts[k] == g;
      assert BucketFor(before, all, rep, firsts[k], order[k], groups);
      assert Agrees(rep, all, g, f) && Agrees(rep, all, f, e) && Agrees(rep, all, e, f);
    }
    FirstsNew(before, e, all);
    forall l | 0 <= l < |order|
      ensures BucketFor(more, all, rep, firsts[l], order[l], next)
    {
      assert BucketFor(before, all, rep, firsts[l], order[l], groups);
      SelectMore(before, e, Component(all, firsts[l].messageId));
      assert Agrees(rep, all, firsts[l], e);
    }
    SelectMore(before, e, Component(all, e.messageId));
    NoneSelected(before, Component(all, e.messageId));
    Reflexive(Links(all), e.messageId);
    assert BucketFor(more, all, rep, e, root, next);
  }

  lemma {:induction false} NoneSelected(envs: seq<Envelope>, ids: iset<string>)
    requires forall f :: f in envs ==> f.messageId !in ids
    ensures Select(envs, ids) == []
  {
    if envs != [] {
      assert envs[|envs| - 1] in envs;
      NoneSelected(envs[..|envs| - 1], ids);
    }
  }

  /** Third pass: each message goes to the bucket of its root. */
  method FillBuckets(envs: seq<Envelope>, forest: IdForest)
    returns (order: seq<string>, groups: map<string, seq<Envelope>>)
    requires forest.Valid() && forall e :: e in envs ==> e.messageId in forest.parent
    requires Decides(forest.rep, envs, Elements(envs))
    modifies forest
    ensures Bucketed(envs, Elements(envs), forest.rep, order, groups)
  {
    order, groups := [], map[];
    ghost var all, rep := Elements(envs), forest.rep;
    for i := 0 to |envs|
      invariant forest.Valid() && forest.rep == rep && forest.parent.Keys == old(forest.parent.Keys)
      invariant Bucketed(envs[..i], all, rep, order, groups)
    {
      var e := envs[i];
      assert e in envs;
      assert envs[..i + 1] == envs[..i] + [e];
      assert Decides(rep, envs[..i] + [e], all);
      var root := forest.Find(e.messageId);
      if root in groups {
        KnownRoot(envs[..i], e, all, rep, order, groups);
        groups := groups[root := groups[root] + [e]];
      } else {
        NewRoot(envs[..i], e, all, rep, order, groups);
        order := order + [root];
        groups := groups[root := [e]];
      }
    }
    assert envs[..|envs|] == envs;
  }

  // ---- the whole algorithm ----------------------------------------------------------

  method MakeSummary(list: seq<Envelope>, folder: string) returns (t: ThreadSummary)
    requires list != []
    ensures t == Summarize(list, folder)
  {
    var newest, oldest := list[|list| - 1], list[0];
    var participants := Participants(list);
    t := ThreadSummary(
      ThreadIds.ThreadIdFor(RootId(list)), folder, SubjectOf(newest, oldest), participants, newest.snippet, newest.date,
      exists e :: e in list && "\\Seen" !in e.flags,
      exists e :: e in list && "\\Flagged" in e.flags,
      "\\Answered" in newest.flags,
      exists e :: e in list && e.hasAttachments,
      |list|, Uids(list));
  }

  lemma RootsDecide(forest: IdForest, envs: seq<Envelope>)
    requires forest.Valid() && forest.joined == DrawnLinks(envs)
    requires forall e :: e in envs ==> e.messageId in forest.parent
    ensures Decides(forest.rep, envs, Elements(envs))
  {
    forall e, f | e in envs && f in envs
      ensures Agrees(forest.rep, Elements(envs), e, f)
    {
      SameRootIffConnected(forest.Now(), e.messageId, f.messageId);
      PassEqualsAllPairs(envs, e.messageId, f.messageId);
    }
  }

  lemma SummaryOfBucket(envs: seq<Envelope>, folder: string, rep: map<string, string>,
                        order: seq<string>, groups: map<string, seq<Envelope>>, k: nat)
    requires Bucketed(envs, Elements(envs), rep, order, groups) && k < |order|
    requires forall f :: f in Firsts(envs, Elements(envs)) ==> f in envs
    ensures order[k] in groups && SortBy(groups[order[k]], DateOf) != []
    ensures Summarize(SortBy(groups[order[k]], DateOf), folder)
         == Summaries(envs, Firsts(envs, Elements(envs)), folder)[k]
  {
    var f := Firsts(envs, Elements(envs))[k];
    assert BucketFor(envs, Elements(envs), rep, f, order[k], groups);
    ConversationIsInhabited(envs, f);
    assert SortBy(groups[order[k]], DateOf) == Conversation(envs, f.messageId);
  }

  lemma TakeOneMore<T>(s: seq<T>, k: nat)
    requires k < |s|
    ensures s[..k + 1] == s[..k] + [s[k]]
  {
  }

  /** Last pass: one summary per bucket. */
  method SummarizeBuckets(envs: seq<Envelope>, folder: string, ghost rep: map<string, string>,
                          order: seq<string>, groups: map<string, seq<Envelope>>)
    returns (threads: seq<ThreadSummary>)
    requires Bucketed(envs, Elements(envs), rep, order, groups)
    requires forall f :: f in Firsts(envs, Elements(envs)) ==> f in envs
    ensures threads == Summaries(envs, Firsts(envs, Elements(envs)), folder)
  {
    ghost var all := Summaries(envs, Firsts(envs, Elements(envs)), folder);
    threads := [];
    for k := 0 to |order|
      invariant threads == all[..k]
    {
      SummaryOfBucket(envs, folder, rep, order, groups, k);
      TakeOneMore(all, k);
      var t := MakeSummary(SortBy(groups[order[k]], DateOf), folder);
      threads := threads + [t];
    }
  }

  /** Groups messages into conversations: exactly the connected components of their links. */
  method GroupThreads(envs: seq<Envelope>, folder: string) returns (threads: seq<ThreadSummary>)
    requires AllWellFormed(envs)
    ensures threads == Threads(envs, folder)
  {
    var forest := JoinById(envs);
    JoinBySubject(envs, forest);
    RootsDecide(forest, envs);
    var order, groups := FillBuckets(envs, forest);
    FirstsAreMembers(envs, Elements(envs));
    threads := SummarizeBuckets(envs, folder, forest.rep, order, groups);
    threads := SortBy(threads, NewestFirst);
  }
}
