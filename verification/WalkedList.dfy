/** Loading every page of a folder while mail keeps arriving: what the browser's merged list then shows. */
module WalkedList {
  import opened Text
  import opened Graph
  import opened Sorting
  import opened Envelopes
  import opened ThreadIds
  import opened Conversations
  import opened ConversationLaws
  import opened Folder
  import opened ThreadLookup
  import opened ThreadPaging
  import opened MergedPages
  import SubjectFallback

  /** One request: the folder at that moment, the UIDs its search returned, and the page size. */
  datatype Visit = Visit(mail: Mail, matches: seq<nat>, limit: nat)

  /** Searches return each existing message at most once. */
  ghost predicate GoodVisit(v: Visit) {
    Parsed(v.mail) && NoDuplicates(v.matches) && forall u :: u in v.matches ==> u in v.mail
  }

  function Matches(visits: seq<Visit>): (r: seq<seq<nat>>)
    ensures |r| == |visits| && forall i :: 0 <= i < |r| ==> r[i] == visits[i].matches
  {
    seq(|visits|, i requires 0 <= i < |visits| => visits[i].matches)
  }

  function Limits(visits: seq<Visit>): (r: seq<nat>)
    ensures |r| == |visits| && forall i :: 0 <= i < |r| ==> r[i] == visits[i].limit
  {
    seq(|visits|, i requires 0 <= i < |visits| => visits[i].limit)
  }

  ghost function PageThreads(visits: seq<Visit>, pages: seq<seq<nat>>, folder: string): (r: seq<seq<ThreadSummary>>)
    requires |pages| == |visits|
    ensures |r| == |visits| && forall i :: 0 <= i < |r| ==> r[i] == Threads(Fetch(visits[i].mail, pages[i]), folder)
  {
    seq(|visits|, i requires 0 <= i < |visits| => Threads(Fetch(visits[i].mail, pages[i]), folder))
  }

  ghost predicate Shows(rows: seq<ThreadSummary>, u: nat) {
    exists k :: 0 <= k < |rows| && u in rows[k].uids
  }

  // ---- one page -----------------------------------------------------------------------

  lemma PageShowsItsMessages(mail: Mail, page: seq<nat>, folder: string, u: nat)
    requires NoDuplicates(page) && forall v :: v in page ==> v in mail
    ensures Shows(Threads(Fetch(mail, page), folder), u) <==> u in page
  {
    hide Threads;
    var envs := Fetch(mail, page);
    FetchedMembers(mail, page);
    if u in page {
      var k := EveryMessageIsListed(envs, folder, Env(mail, u));
    }
    if k :| 0 <= k < |Threads(envs, folder)| && u in Threads(envs, folder)[k].uids {
      var list := RowIsWellMade(envs, folder, k);
      var i :| 0 <= i < |list| && Uids(list)[i] == u;
      assert list[i] in envs;
    }
  }

  lemma PageRowsAreDisjoint(mail: Mail, page: seq<nat>, folder: string)
    requires NoDuplicates(page)
    ensures DisjointRows(Threads(Fetch(mail, page), folder))
    ensures forall t :: t in Threads(Fetch(mail, page), folder) ==> CountsItsMessages(t)
  {
    hide Threads;
    var envs := Fetch(mail, page);
    var rows := Threads(envs, folder);
    FetchedMembers(mail, page);
    forall i, j, u | 0 <= i < j < |rows| && u in rows[i].uids
      ensures u !in rows[j].uids
    {
      var list := RowIsWellMade(envs, folder, i);
      var n :| 0 <= n < |list| && Uids(list)[n] == u;
      assert list[n] in envs;
      Reflexive(Links(Elements(envs)), list[n].messageId);
      if u in rows[j].uids {
        Partition(envs, folder, list[n], list[n], i, j);
      }
    }
    forall t | t in rows
      ensures CountsItsMessages(t)
    {
      var i :| 0 <= i < |rows| && rows[i] == t;
      var list := RowIsWellMade(envs, folder, i);
    }
  }

  // ---- all pages ----------------------------------------------------------------------

  lemma {:induction false} ConcatShows(pages: seq<seq<ThreadSummary>>, u: nat)
    ensures Shows(Concat(pages), u) <==> exists i :: 0 <= i < |pages| && Shows(pages[i], u)
  {
    if pages != [] {
      var before, last := pages[..|pages| - 1], pages[|pages| - 1];
      ConcatShows(before, u);
      var all := Concat(pages);
      if k :| 0 <= k < |all| && u in all[k].uids {
        if k < |Concat(before)| {
          assert u in Concat(before)[k].uids;
          var i :| 0 <= i < |before| && Shows(before[i], u);
          assert Shows(pages[i], u);
        } else {
          assert u in last[k - |Concat(before)|].uids;
          assert Shows(pages[|pages| - 1], u);
        }
      }
      if i :| 0 <= i < |pages| && Shows(pages[i], u) {
        if i < |before| {
          assert Shows(before[i], u);
          var k :| 0 <= k < |Concat(before)| && u in Concat(before)[k].uids;
          assert u in all[k].uids;
        } else {
          var k :| 0 <= k < |last| && u in last[k].uids;
          assert u in all[|Concat(before)| + k].uids;
        }
      }
    }
  }

  ghost predicate DisjointPages(pages: seq<seq<ThreadSummary>>) {
    forall i, j, u :: 0 <= i < j < |pages| && Shows(pages[i], u) ==> !Shows(pages[j], u)
  }

  lemma {:induction false} ConcatIsDisjoint(pages: seq<seq<ThreadSummary>>)
    requires DisjointPages(pages) && forall i :: 0 <= i < |pages| ==> DisjointRows(pages[i])
    ensures DisjointRows(Concat(pages))
  {
    if pages != [] {
      var before, last := pages[..|pages| - 1], pages[|pages| - 1];
      ConcatIsDisjoint(before);
      var all := Concat(pages);
      forall i, j, u | 0 <= i < j < |all| && u in all[i].uids
        ensures u !in all[j].uids
      {
        var n := |Concat(before)|;
        if i < n <= j {
          assert Shows(Concat(before), u);
          ConcatShows(before, u);
          var p :| 0 <= p < |before| && Shows(before[p], u);
          assert Shows(pages[p], u) && !Shows(pages[|pages| - 1], u);
          assert all[j] == last[j - n];
        } else if n <= i {
          assert all[i] == last[i - n] && all[j] == last[j - n];
        } else {
          assert all[i] == Concat(before)[i] && all[j] == Concat(before)[j];
        }
      }
    }
  }

  lemma {:induction false} ConcatMembers(pages: seq<seq<ThreadSummary>>, t: ThreadSummary)
    requires t in Concat(pages)
    ensures exists i :: 0 <= i < |pages| && t in pages[i]
  {
    var before, last := pages[..|pages| - 1], pages[|pages| - 1];
    if t !in last {
      ConcatMembers(before, t);
      var i :| 0 <= i < |before| && t in before[i];
      assert t in pages[i];
    } else {
      assert t in pages[|pages| - 1];
    }
  }

  /** The requests of a complete walk, each following the cursor the one before returned. */
  ghost predicate CompleteWalk(visits: seq<Visit>, pages: seq<seq<nat>>) {
    && (forall i :: 0 <= i < |visits| ==> GoodVisit(visits[i]))
    && Growing(Matches(visits))
    && IsWalk(Matches(visits), Limits(visits), None, pages)
  }

  lemma {:induction false} WalkedPagesAreDistinct(folders: seq<seq<nat>>, limits: seq<nat>, cursor: Option<nat>, pages: seq<seq<nat>>, i: nat)
    requires IsWalk(folders, limits, cursor, pages) && i < |pages|
    requires forall j :: 0 <= j < |folders| ==> NoDuplicates(folders[j])
    ensures NoDuplicates(pages[i]) && forall u :: u in pages[i] ==> u in folders[i]
    decreases |pages|
  {
    if i == 0 {
      PageSplits(folders[0], cursor, limits[0]);
    } else {
      WalkedPagesAreDistinct(folders[1..], limits[1..], CursorAfter(folders[0], cursor, limits[0]), pages[1..], i - 1);
    }
  }

  lemma WalkedPagesAreDisjoint(visits: seq<Visit>, pages: seq<seq<nat>>, folder: string)
    requires CompleteWalk(visits, pages)
    ensures |pages| == |visits| && DisjointPages(PageThreads(visits, pages, folder))
  {
    hide Threads;
    var lists := PageThreads(visits, pages, folder);
    forall i, j, u | 0 <= i < j < |lists| && Shows(lists[i], u)
      ensures !Shows(lists[j], u)
    {
      PageOfWalk(visits, pages, folder, i, u);
      PageOfWalk(visits, pages, folder, j, u);
      WalkPagesAreDisjoint(Matches(visits), Limits(visits), None, pages, i, j, u);
    }
  }

  lemma PageOfWalk(visits: seq<Visit>, pages: seq<seq<nat>>, folder: string, i: nat, u: nat)
    requires CompleteWalk(visits, pages) && i < |visits|
    ensures |pages| == |visits| && NoDuplicates(pages[i]) && forall v :: v in pages[i] ==> v in visits[i].mail
    ensures Shows(PageThreads(visits, pages, folder)[i], u) <==> u in pages[i]
  {
    hide Threads;
    WalkedPagesAreDistinct(Matches(visits), Limits(visits), None, pages, i);
    assert GoodVisit(visits[i]);
    PageShowsItsMessages(visits[i].mail, pages[i], folder, u);
  }

  lemma WalkedRowsAreDisjoint(visits: seq<Visit>, pages: seq<seq<nat>>, folder: string)
    requires CompleteWalk(visits, pages)
    ensures |pages| == |visits| && DisjointRows(Concat(PageThreads(visits, pages, folder)))
    ensures var list := Concat(PageThreads(visits, pages, folder));
      forall i :: 0 <= i < |list| ==> CountsItsMessages(list[i])
  {
    hide Threads;
    WalkedPagesAreDisjoint(visits, pages, folder);
    var lists := PageThreads(visits, pages, folder);
    forall i | 0 <= i < |lists|
      ensures DisjointRows(lists[i]) && forall t :: t in lists[i] ==> CountsItsMessages(t)
    {
      PageOfWalk(visits, pages, folder, i, 0);
      PageRowsAreDisjoint(visits[i].mail, pages[i], folder);
    }
    ConcatIsDisjoint(lists);
    var list := Concat(lists);
    forall i | 0 <= i < |list|
      ensures CountsItsMessages(list[i])
    {
      assert list[i] in list;
      ConcatMembers(lists, list[i]);
    }
  }

  /**
   * After a complete walk every message that was there at its first request is in exactly one row, no other message is
   * in any row, row ids are unique, and each row counts the messages it lists.
   */
  lemma WalkShowsEachMessageOnce(visits: seq<Visit>, pages: seq<seq<nat>>, folder: string, u: nat)
    requires CompleteWalk(visits, pages)
    ensures |pages| == |visits| > 0
    ensures var rows := MergeAll(Concat(PageThreads(visits, pages, folder)));
      && DistinctIds(rows)
      && (forall k :: 0 <= k < |rows| ==> CountsItsMessages(rows[k]))
      && (Shows(rows, u) <==> u in visits[0].matches)
      && (forall k, l :: 0 <= k < l < |rows| && u in rows[k].uids ==> u !in rows[l].uids)
  {
    hide Threads, MergeAll, DistinctIds;
    WalkedRowsAreDisjoint(visits, pages, folder);
    var lists := PageThreads(visits, pages, folder);
    var list := Concat(lists);
    var rows := MergeAll(list);
    MergedIdsAreDistinct(list);
    forall k | 0 <= k < |rows|
      ensures CountsItsMessages(rows[k])
    {
      MergedRowsCount(list, k);
    }
    WalkListShows(visits, pages, folder, u);
    if Shows(list, u) {
      var k := MergedRowsPartition(list, u);
    }
    if k :| 0 <= k < |rows| && u in rows[k].uids {
      MergedRowsHold(list, k, u);
      var i :| 0 <= i < |list| && list[i].id == rows[k].id && u in list[i].uids;
      assert Shows(list, u);
    }
  }

  lemma WalkListShows(visits: seq<Visit>, pages: seq<seq<nat>>, folder: string, u: nat)
    requires CompleteWalk(visits, pages)
    ensures |pages| == |visits| > 0
    ensures Shows(Concat(PageThreads(visits, pages, folder)), u) <==> u in visits[0].matches
  {
    hide Threads;
    var lists := PageThreads(visits, pages, folder);
    ConcatShows(lists, u);
    WalkCovers(Matches(visits), Limits(visits), None, pages, u);
    forall i | 0 <= i < |lists|
      ensures Shows(lists[i], u) <==> u in pages[i]
    {
      PageOfWalk(visits, pages, folder, i, u);
    }
  }

  // ---- rows and whole-folder threads --------------------------------------------------

  /** Flags and previews may change, but what links a message to others does not. */
  ghost predicate SameHeaders(m: Message, n: Message) {
    && m.headerId == n.headerId && m.inReplyTo == n.inReplyTo && m.references == n.references
    && m.subject == n.subject && m.date == n.date && m.from == n.from
  }

  ghost predicate StillThere(mail: Mail, later: Mail) {
    forall u :: u in mail ==> u in later && SameHeaders(mail[u], later[u])
  }

  lemma SameHeadersSameLinks(u: nat, m: Message, n: Message)
    requires SameHeaders(m, n)
    ensures ToEnvelope(u, m).messageId == ToEnvelope(u, n).messageId
    ensures NamedIds(ToEnvelope(u, m)) == NamedIds(ToEnvelope(u, n))
    ensures TagOf(ToEnvelope(u, m)) == TagOf(ToEnvelope(u, n))
  {
  }

  lemma PageLinkIsFolderLink(mail: Mail, page: seq<nat>, later: Mail, link: (string, string))
    requires StillThere(mail, later) && link in Links(Elements(Fetch(mail, page)))
    ensures link in Links(AllEnvelopes(later))
  {
    var envs := Fetch(mail, page);
    FetchedMembers(mail, page);
    if link in IdLinks(Elements(envs)) {
      var e, id :| e in Elements(envs) && id in NamedIds(e) && link == (e.messageId, id);
      SameHeadersSameLinks(e.uid, mail[e.uid], later[e.uid]);
      assert Env(later, e.uid) in AllEnvelopes(later);
    } else {
      var e, f :| e in Elements(envs) && f in Elements(envs) && Close(TagOf(e), TagOf(f)) && link == (e.messageId, f.messageId);
      SameHeadersSameLinks(e.uid, mail[e.uid], later[e.uid]);
      SameHeadersSameLinks(f.uid, mail[f.uid], later[f.uid]);
      assert Env(later, e.uid) in AllEnvelopes(later) && Env(later, f.uid) in AllEnvelopes(later);
      SubjectFallback.SubjectLinkOf(AllEnvelopes(later), Env(later, e.uid), Env(later, f.uid));
    }
  }

  /** The messages of a page row belong to the whole-folder thread around the row's root id. */
  lemma PageRowInThread(mail: Mail, page: seq<nat>, later: Mail, folder: string, k: nat, u: nat, root: string)
    requires Parsed(mail) && NoDuplicates(page) && StillThere(mail, later)
    requires k < |Threads(Fetch(mail, page), folder)|
    requires ThreadIdFor(root) == Threads(Fetch(mail, page), folder)[k].id && u in Threads(Fetch(mail, page), folder)[k].uids
    ensures u in WholeThread(later, root)
  {
    var envs := Fetch(mail, page);
    FetchedMembers(mail, page);
    FetchedIsWellFormed(mail, page);
    var small, large := Links(Elements(envs)), Links(AllEnvelopes(later));
    var h := ThreadHasHead(envs, folder, k);
    var c := Conversation(envs, h.messageId);
    ThreadIdInjective(root, RootId(c));
    RootIsConnected(envs, h.messageId);
    Symmetric(small, h.messageId, root);
    ConversationMembers(envs, h.messageId);
    var i :| 0 <= i < |c| && Uids(c)[i] == u;
    assert c[i] in c;
    Transitive(small, root, h.messageId, c[i].messageId);
    forall link | link in small
      ensures link in large
    {
      PageLinkIsFolderLink(mail, page, later, link);
    }
    Monotone(small, large, root, c[i].messageId);
    SameHeadersSameLinks(u, mail[u], later[u]);
  }

  /** Each merged row lies inside one thread of any later state of the folder: the one around the row's root id. */
  lemma WalkedRowInThread(visits: seq<Visit>, pages: seq<seq<nat>>, folder: string, later: Mail, k: nat, u: nat, root: string)
    requires CompleteWalk(visits, pages) && |pages| == |visits|
    requires forall i :: 0 <= i < |visits| ==> StillThere(visits[i].mail, later)
    requires k < |MergeAll(Concat(PageThreads(visits, pages, folder)))|
    requires var row := MergeAll(Concat(PageThreads(visits, pages, folder)))[k];
      row.id == ThreadIdFor(root) && u in row.uids
    ensures u in WholeThread(later, root)
  {
    hide Threads, MergeAll;
    var lists := PageThreads(visits, pages, folder);
    var list := Concat(lists);
    MergedRowsHold(list, k, u);
    var n :| 0 <= n < |list| && list[n].id == ThreadIdFor(root) && u in list[n].uids;
    assert list[n] in list;
    ConcatMembers(lists, list[n]);
    var i :| 0 <= i < |lists| && list[n] in lists[i];
    var j :| 0 <= j < |lists[i]| && lists[i][j] == list[n];
    PageOfWalk(visits, pages, folder, i, u);
    assert GoodVisit(visits[i]);
    PageRowInThread(visits[i].mail, pages[i], later, folder, j, u, root);
  }
}
