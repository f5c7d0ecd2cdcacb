/** Listing a folder page by page, newest UIDs first. */
module ThreadPaging {
  import opened Text
  import opened Sorting
  import opened Envelopes
  import opened Conversations
  import opened Folder
  import opened ThreadLookup
  import Grouping

  const PAGE := 50

  datatype ThreadList = ThreadList(folder: string, threads: seq<ThreadSummary>, nextCursor: Option<nat>, total: nat)

  function PageLimit(limit: Option<int>): (r: nat)
    ensures 1 <= r <= 200 && (limit.None? ==> r == 50) && (limit.Some? && 1 <= limit.value <= 200 ==> r == limit.value)
  {
    var asked := if limit.Some? then limit.value else PAGE;
    if asked < 1 then 1 else if asked > 200 then 200 else asked
  }

  /** The UIDs below the cursor. */
  function Eligible(all: seq<nat>, cursor: Option<nat>): (r: seq<nat>)
    ensures forall u :: u in r <==> u in all && (cursor.Some? ==> u < cursor.value)
  {
    if all == [] then []
    else
      var last := all[|all| - 1];
      Eligible(all[..|all| - 1], cursor) + (if cursor.None? || last < cursor.value then [last] else [])
  }

  function LastOf(s: seq<nat>, limit: nat): seq<nat> {
    if |s| <= limit then s else s[|s| - limit..]
  }

  function PageOf(matches: seq<nat>, cursor: Option<nat>, limit: nat): seq<nat> {
    LastOf(Eligible(SortBy(matches, Identity), cursor), limit)
  }

  function CursorAfter(matches: seq<nat>, cursor: Option<nat>, limit: nat): Option<nat> {
    var eligible := Eligible(SortBy(matches, Identity), cursor);
    if LastOf(eligible, limit) != [] && |eligible| > |LastOf(eligible, limit)| then Some(LastOf(eligible, limit)[0]) else None
  }

  ghost predicate Ascending(s: seq<nat>) {
    forall i, j :: 0 <= i < j < |s| ==> s[i] < s[j]
  }

  lemma SortedDistinctIsAscending(s: seq<nat>)
    requires NoDuplicates(s)
    ensures Ascending(SortBy(s, Identity))
  {
    SortOrders(s, Identity);
    SortKeepsNoDuplicates(s, Identity);
    var r := SortBy(s, Identity);
    forall i, j | 0 <= i < j < |r|
      ensures r[i] < r[j]
    {
      assert Identity(r[i]) <= Identity(r[j]);
    }
  }

  lemma {:induction false} EligibleIsAscending(all: seq<nat>, cursor: Option<nat>)
    requires Ascending(all)
    ensures Ascending(Eligible(all, cursor))
  {
    if all != [] {
      var before := all[..|all| - 1];
      EligibleIsAscending(before, cursor);
      var kept := Eligible(before, cursor);
      forall i | 0 <= i < |kept|
        ensures kept[i] < all[|all| - 1]
      {
        assert kept[i] in before;
      }
    }
  }

  /** A page is ascending and holds what is below the cursor from the next cursor on, or everything when there is none. */
  lemma PageSplits(matches: seq<nat>, cursor: Option<nat>, limit: nat)
    requires NoDuplicates(matches) && limit > 0
    ensures Ascending(PageOf(matches, cursor, limit))
    ensures var next := CursorAfter(matches, cursor, limit);
      forall u :: u in PageOf(matches, cursor, limit) <==>
        u in matches && (cursor.Some? ==> u < cursor.value) && (next.Some? ==> next.value <= u)
    ensures var next := CursorAfter(matches, cursor, limit);
      next.Some? ==> next.value in matches && (cursor.Some? ==> next.value < cursor.value)
    ensures |PageOf(matches, cursor, limit)| <= limit
    ensures CursorAfter(matches, cursor, limit).Some? ==> |PageOf(matches, cursor, limit)| == limit
  {
    var sorted := SortBy(matches, Identity);
    SortPermutes(matches, Identity);
    SortedDistinctIsAscending(matches);
    EligibleIsAscending(sorted, cursor);
    SplitAtLast(Eligible(sorted, cursor), limit);
  }

  lemma SplitAtLast(s: seq<nat>, limit: nat)
    requires Ascending(s) && limit > 0
    ensures Ascending(LastOf(s, limit))
    ensures |s| <= limit ==> LastOf(s, limit) == s
    ensures |s| > limit ==>
      LastOf(s, limit) != [] && LastOf(s, limit)[0] in s && forall u :: u in LastOf(s, limit) <==> u in s && LastOf(s, limit)[0] <= u
  {
    if |s| > limit {
      var r := LastOf(s, limit);
      assert r[0] == s[|s| - limit];
      forall u | u in s && r[0] <= u
        ensures u in r
      {
        var i :| 0 <= i < |s| && s[i] == u;
        assert i >= |s| - limit;
        assert r[i - (|s| - limit)] == u;
      }
    }
  }

  /** One page of the thread list; `matches` is what the server's search returned, in any order. */
  method ListThreads(mail: Mail, matches: seq<nat>, folder: string, cursor: Option<nat>, limit: Option<int>)
    returns (list: ThreadList)
    requires Parsed(mail) && NoDuplicates(matches)
    ensures list.threads == Threads(Fetch(mail, PageOf(matches, cursor, PageLimit(limit))), folder)
    ensures list.nextCursor == CursorAfter(matches, cursor, PageLimit(limit))
    ensures list.folder == folder && list.total == |matches|
  {
    var all := SortBy(matches, Identity);
    var eligible := Eligible(all, cursor);
    var page := LastOf(eligible, PageLimit(limit));
    var envs := Fetch(mail, page);
    FetchedIsWellFormed(mail, page);
    var threads := Grouping.GroupThreads(envs, folder);
    var next := if page != [] && |eligible| > |page| then Some(page[0]) else None;
    list := ThreadList(folder, threads, next, |all|);
  }

  lemma FetchedIsWellFormed(mail: Mail, uids: seq<nat>)
    requires Parsed(mail)
    ensures AllWellFormed(Fetch(mail, uids))
  {
    FetchedMembers(mail, uids);
    var envs := Fetch(mail, uids);
    forall i | 0 <= i < |envs|
      ensures WellFormed(envs[i])
    {
      assert envs[i] in envs;
    }
  }

  // ---- walking all pages --------------------------------------------------------------

  /** Between two requests mail only arrives, under UIDs above all earlier ones (RFC 3501, section 2.3.1.1). */
  ghost predicate Arrives(before: seq<nat>, after: seq<nat>) {
    && (forall u :: u in before ==> u in after)
    && (forall u, v :: u in before && v in after && v !in before ==> u < v)
  }

  ghost predicate Growing(folders: seq<seq<nat>>) {
    && (forall i :: 0 <= i < |folders| ==> NoDuplicates(folders[i]))
    && (forall i :: 0 <= i < |folders| - 1 ==> Arrives(folders[i], folders[i + 1]))
  }

  /** Requests follow the cursors from `cursor` until there is none left; request `i` sees `folders[i]`. */
  ghost predicate IsWalk(folders: seq<seq<nat>>, limits: seq<nat>, cursor: Option<nat>, pages: seq<seq<nat>>)
    decreases |pages|
  {
    && |pages| == |folders| == |limits| && |pages| > 0 && limits[0] > 0
    && pages[0] == PageOf(folders[0], cursor, limits[0])
    && var next := CursorAfter(folders[0], cursor, limits[0]);
    if |pages| == 1 then next.None? else next.Some? && IsWalk(folders[1..], limits[1..], next, pages[1..])
  }

  /**
   * However much mail arrives meanwhile, the pages of a walk together hold exactly the messages that were there at its
   * first request.
   */
  lemma {:induction false} WalkCovers(folders: seq<seq<nat>>, limits: seq<nat>, cursor: Option<nat>, pages: seq<seq<nat>>, u: nat)
    requires Growing(folders) && IsWalk(folders, limits, cursor, pages)
    ensures (exists i :: 0 <= i < |pages| && u in pages[i]) <==> u in folders[0] && (cursor.Some? ==> u < cursor.value)
    decreases |pages|
  {
    PageSplits(folders[0], cursor, limits[0]);
    if |pages| > 1 {
      var next := CursorAfter(folders[0], cursor, limits[0]);
      assert Growing(folders[1..]) by {
        forall i | 0 <= i < |folders[1..]| - 1
          ensures Arrives(folders[1..][i], folders[1..][i + 1])
        {
          assert Arrives(folders[i + 1], folders[i + 2]);
        }
      }
      WalkCovers(folders[1..], limits[1..], next, pages[1..], u);
      assert Arrives(folders[0], folders[1]);
      if i :| 0 <= i < |pages| && u in pages[i] {
        if i > 0 {
          assert u in pages[1..][i - 1];
        }
      }
      if u in folders[0] && (cursor.Some? ==> u < cursor.value) && u !in pages[0] {
        var i :| 0 <= i < |pages[1..]| && u in pages[1..][i];
        assert u in pages[i + 1];
      }
    } else {
      assert u in pages[0] <==> u in folders[0] && (cursor.Some? ==> u < cursor.value);
    }
  }

  /** No message comes back on two pages. */
  lemma {:induction false} WalkPagesAreDisjoint(folders: seq<seq<nat>>, limits: seq<nat>, cursor: Option<nat>, pages: seq<seq<nat>>,
                                                i: nat, j: nat, u: nat)
    requires Growing(folders) && IsWalk(folders, limits, cursor, pages)
    requires i < j < |pages|
    ensures !(u in pages[i] && u in pages[j])
    decreases |pages|
  {
    PageSplits(folders[0], cursor, limits[0]);
    var next := CursorAfter(folders[0], cursor, limits[0]);
    assert Growing(folders[1..]) by {
      forall k | 0 <= k < |folders[1..]| - 1
        ensures Arrives(folders[1..][k], folders[1..][k + 1])
      {
        assert Arrives(folders[k + 1], folders[k + 2]);
      }
    }
    if i == 0 {
      if u in pages[j] {
        assert u in pages[1..][j - 1];
        WalkCovers(folders[1..], limits[1..], next, pages[1..], u);
      }
    } else {
      WalkPagesAreDisjoint(folders[1..], limits[1..], next, pages[1..], i - 1, j - 1, u);
    }
  }
}
