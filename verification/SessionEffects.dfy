/** What signing in, switching and loading bring about for the accounts of a browser. */
module SessionEffects {
  import opened Text
  import opened Sessions
  import opened SessionLaws

  // ---- loading ------------------------------------------------------------------------------

  lemma {:induction false} LiveDependsOnRows(a: map<string, Session>, b: map<string, Session>, disabled: set<string>, now: int, ids: seq<string>)
    requires forall id :: id in ids ==> (Alive(a, disabled, now, id) <==> Alive(b, disabled, now, id))
    requires forall id :: id in ids && id in a && id in b && Alive(a, disabled, now, id) ==> a[id].mailbox == b[id].mailbox
    ensures Live(a, disabled, now, ids) == Live(b, disabled, now, ids)
  {
    if ids != [] {
      var before, last := ids[..|ids| - 1], ids[|ids| - 1];
      LiveDependsOnRows(a, b, disabled, now, before);
      var live := Live(a, disabled, now, before);
      if Alive(a, disabled, now, last) {
        forall m
          ensures HasMailbox(a, live, m) <==> HasMailbox(b, live, m)
        {
          if id :| id in live && id in a && a[id].mailbox == m {
            assert id in b && b[id].mailbox == m;
          }
          if id :| id in live && id in b && b[id].mailbox == m {
            assert id in a && a[id].mailbox == m;
          }
        }
      }
    }
  }

  /** Prolonging makes nothing live or dead at that moment. */
  lemma RefreshedAlike(sessions: map<string, Session>, disabled: set<string>, kept: seq<string>, now: int, ids: seq<string>)
    ensures Live(Refreshed(sessions, Live(sessions, disabled, now, kept), now), disabled, now, ids) == Live(sessions, disabled, now, ids)
  {
    var after := Refreshed(sessions, Live(sessions, disabled, now, kept), now);
    hide Live;
    LiveDependsOnRows(after, sessions, disabled, now, ids);
  }

  lemma {:induction false} DistinctIsShorter(ids: seq<string>)
    ensures |Distinct(ids)| <= |ids|
  {
    if ids != [] {
      DistinctIsShorter(ids[..|ids| - 1]);
    }
  }

  /** A request names the sessions of the accounts cookie and the active one, whether or not the cookie lists that. */
  lemma NamedAreRead(c: Cookies, id: string)
    requires |c.accounts| < 16
    ensures id in ReadIds(c) <==> id in c.accounts || c.active == Some(id)
  {
    var ids := if c.active.Some? && c.active.value !in c.accounts then c.accounts + [c.active.value] else c.accounts;
    DistinctIsShorter(ids);
    hide Distinct;
  }

  /** Loading writes the live sessions into the accounts cookie whenever it named others too, and never anything else. */
  lemma LoadTidies(w: World, disabled: set<string>, now: int)
    ensures var after, live := Loaded(w, disabled, now).cookies, LiveAccounts(w, disabled, now);
      && after.active == w.cookies.active && (after.accounts == live || after == w.cookies)
      && (live != ReadIds(w.cookies) ==> after.accounts == live)
  {
    hide Live, ReadIds, Stale;
  }

  /** After the accounts were loaded every live session runs for at least 29 days more, and the other rows are as they were. */
  lemma LoadProlongs(w: World, disabled: set<string>, now: int, id: string)
    requires id in w.sessions
    ensures id in Loaded(w, disabled, now).sessions
    ensures var before, after := w.sessions[id], Loaded(w, disabled, now).sessions[id];
      && after.mailbox == before.mailbox
      && (id in LiveAccounts(w, disabled, now) ==>
            after.expires - now >= 2_505_600_000 && (after.expires == before.expires || after.expires == now + 2_592_000_000))
      && (id !in LiveAccounts(w, disabled, now) ==> after == before)
  {
    hide Live, ReadIds;
  }

  // ---- switching ----------------------------------------------------------------------------

  lemma {:induction false} FirstOfFinds(sessions: map<string, Session>, ids: seq<string>, mailbox: string)
    ensures FirstOf(sessions, ids, mailbox).Some? <==> HasMailbox(sessions, ids, mailbox)
  {
    if ids != [] {
      FirstOfFinds(sessions, ids[1..], mailbox);
      assert ids == [ids[0]] + ids[1..];
    }
  }

  /** Switching makes the live session of the mailbox active, if there is one; otherwise the active one stays. */
  lemma SwitchTakesEffect(w: World, mailbox: string, disabled: set<string>, now: int)
    ensures var after, live := Switched(w, mailbox, disabled, now), LiveAccounts(w, disabled, now);
      && (HasMailbox(w.sessions, live, mailbox) ==>
            after.cookies.active.Some? && after.cookies.active.value in live && after.cookies.active.value in w.sessions
            && w.sessions[after.cookies.active.value].mailbox == mailbox)
      && (!HasMailbox(w.sessions, live, mailbox) ==> after.cookies.active == w.cookies.active)
      && after.sessions == Loaded(w, disabled, now).sessions
  {
    hide Live, LiveAccounts, ReadIds;
    FirstOfFinds(w.sessions, LiveAccounts(w, disabled, now), mailbox);
    FirstOfIsMember(w.sessions, LiveAccounts(w, disabled, now), mailbox);
  }

  // ---- signing in ---------------------------------------------------------------------------

  lemma {:induction false} DistinctIsDistinct(ids: seq<string>, i: nat, j: nat)
    requires i < j < |Distinct(ids)|
    ensures Distinct(ids)[i] != Distinct(ids)[j]
  {
    var before := Distinct(ids[..|ids| - 1]);
    if j < |before| {
      DistinctIsDistinct(ids[..|ids| - 1], i, j);
    } else {
      assert before[i] in before;
    }
  }

  lemma {:induction false} WithoutIsDistinct(ids: seq<string>, gone: set<string>)
    requires forall i, j :: 0 <= i < j < |ids| ==> ids[i] != ids[j]
    ensures forall i, j :: 0 <= i < j < |Without(ids, gone)| ==> Without(ids, gone)[i] != Without(ids, gone)[j]
  {
    if ids != [] {
      var before, last := ids[..|ids| - 1], ids[|ids| - 1];
      assert forall i, j :: 0 <= i < j < |before| ==> before[i] != before[j];
      WithoutIsDistinct(before, gone);
      var kept := Without(before, gone);
      forall i | 0 <= i < |kept|
        ensures kept[i] != last
      {
        assert kept[i] in kept && kept[i] in before;
      }
    }
  }

  /** The cookies a sign-in leaves are read back whole as long as they name sixteen sessions at most. */
  lemma CreatedIsReadBack(ids: seq<string>, gone: set<string>, id: string)
    requires (forall i, j :: 0 <= i < j < |ids| ==> ids[i] != ids[j]) && id !in ids
    ensures var kept := Without(ids, gone);
      ReadIds(Cookies(kept + [id], Some(id))) == if |kept| < 16 then kept + [id] else kept[..16]
  {
    var all := Without(ids, gone) + [id];
    WithoutIsDistinct(ids, gone);
    assert id !in Without(ids, gone);
    hide Without, Distinct;
    forall i, j | 0 <= i < j < |all|
      ensures all[i] != all[j]
    {
      assert all[i] in Without(ids, gone);
    }
    DistinctKeeps(all);
  }

  lemma ReadIdsAreDistinct(c: Cookies)
    ensures forall i, j :: 0 <= i < j < |ReadIds(c)| ==> ReadIds(c)[i] != ReadIds(c)[j]
  {
    var ids := if c.active.Some? && c.active.value !in c.accounts then c.accounts + [c.active.value] else c.accounts;
    forall i, j | 0 <= i < j < |ReadIds(c)|
      ensures ReadIds(c)[i] != ReadIds(c)[j]
    {
      DistinctIsDistinct(ids, i, j);
    }
  }

  /** Leaving out all sessions of one mailbox leaves out its live one, and no other. */
  lemma {:induction false} LiveWithout(sessions: map<string, Session>, disabled: set<string>, now: int, ids: seq<string>, gone: set<string>, mailbox: string)
    requires forall id :: id in ids && id in sessions ==> (id in gone <==> sessions[id].mailbox == mailbox)
    ensures Live(sessions, disabled, now, Without(ids, gone)) == Without(Live(sessions, disabled, now, ids), gone)
  {
    hide *;
    if ids == [] {
      NoneLeftOut(sessions, disabled, now, gone);
    } else {
      var before, last := ids[..|ids| - 1], ids[|ids| - 1];
      assert ids == before + [last];
      LiveWithout(sessions, disabled, now, before, gone, mailbox);
      LiveAreThere(sessions, disabled, now, before);
      WithoutMore(before, last, gone);
      if last in gone {
        WithoutMore(Live(sessions, disabled, now, before), last, gone);
        LiveMore(sessions, disabled, now, before, last);
      } else {
        KeptStep(sessions, disabled, now, before, last, gone, mailbox);
      }
    }
  }

  lemma NoneLeftOut(sessions: map<string, Session>, disabled: set<string>, now: int, gone: set<string>)
    ensures Without([], gone) == [] && Live(sessions, disabled, now, []) == []
  {
  }

  lemma KeptStep(sessions: map<string, Session>, disabled: set<string>, now: int, ids: seq<string>, last: string, gone: set<string>, mailbox: string)
    requires Live(sessions, disabled, now, Without(ids, gone)) == Without(Live(sessions, disabled, now, ids), gone)
    requires last !in gone && (last in sessions ==> sessions[last].mailbox != mailbox)
    requires forall id :: id in Live(sessions, disabled, now, ids) && id in sessions ==> (id in gone <==> sessions[id].mailbox == mailbox)
    ensures Live(sessions, disabled, now, Without(ids, gone) + [last]) == Without(Live(sessions, disabled, now, ids + [last]), gone)
  {
    hide *;
    var live := Live(sessions, disabled, now, ids);
    LiveMore(sessions, disabled, now, ids, last);
    LiveMore(sessions, disabled, now, Without(ids, gone), last);
    WithoutMore(live, last, gone);
    if Alive(sessions, disabled, now, last) {
      OthersStay(sessions, live, gone, mailbox, sessions[last].mailbox);
    }
  }

  lemma LiveAreThere(sessions: map<string, Session>, disabled: set<string>, now: int, ids: seq<string>)
    ensures forall id :: id in Live(sessions, disabled, now, ids) ==> id in ids && id in sessions
  {
  }

  lemma LiveMore(sessions: map<string, Session>, disabled: set<string>, now: int, ids: seq<string>, last: string)
    ensures Alive(sessions, disabled, now, last) ==> last in sessions
    ensures var live := Live(sessions, disabled, now, ids);
      Live(sessions, disabled, now, ids + [last])
      == if Alive(sessions, disabled, now, last) && !HasMailbox(sessions, live, sessions[last].mailbox) then live + [last] else live
  {
    assert (ids + [last])[..|ids|] == ids;
    hide HasMailbox;
  }

  lemma WithoutMore(ids: seq<string>, last: string, gone: set<string>)
    ensures Without(ids + [last], gone) == if last in gone then Without(ids, gone) else Without(ids, gone) + [last]
  {
    assert (ids + [last])[..|ids|] == ids;
  }

  lemma OthersStay(sessions: map<string, Session>, live: seq<string>, gone: set<string>, mailbox: string, other: string)
    requires forall id :: id in live && id in sessions ==> (id in gone <==> sessions[id].mailbox == mailbox)
    requires other != mailbox
    ensures HasMailbox(sessions, Without(live, gone), other) <==> HasMailbox(sessions, live, other)
  {
  }

  /**
   * A sign-in that is not turned away makes its session active and puts it behind the accounts signed in before, less the
   * one of the same mailbox; it stays live for thirty days. The exception is a browser that names sixteen other sessions,
   * live or not: there the new one is cut off the list.
   */
  lemma SignInTakesEffect(w: World, mailbox: string, id: string, disabled: set<string>, now: int, sent: bool)
    requires !TooMany(w, mailbox, disabled, now) && mailbox !in disabled && id !in w.sessions && !Named(w.cookies, id)
    ensures var after := SignedIn(w, mailbox, id, disabled, now, sent);
      var gone := OfMailbox(w.sessions, ReadIds(w.cookies), mailbox);
      && after.cookies.active == Some(id) && id in after.sessions && after.sessions[id] == Session(mailbox, now + 2_592_000_000)
      && (forall x :: x in gone ==> x !in after.sessions)
      && (id in ReadIds(after.cookies) <==> |Without(ReadIds(w.cookies), gone)| < 16)
      && (|Without(ReadIds(w.cookies), gone)| < 16 ==>
            LiveAccounts(after, disabled, now) == Without(LiveAccounts(w, disabled, now), gone) + [id])
  {
    var ids := ReadIds(w.cookies);
    var loaded, gone := Loaded(w, disabled, now), OfMailbox(w.sessions, ids, mailbox);
    var kept := Without(ids, gone);
    var after := SignedIn(w, mailbox, id, disabled, now, sent);
    RefreshKeepsMailboxes(w.sessions, Live(w.sessions, disabled, now, ids), now);
    assert OfMailbox(loaded.sessions, ids, mailbox) == gone;
    ReadNames(w.cookies);
    ReadIdsAreDistinct(w.cookies);
    assert id !in ids;
    hide Live, ReadIds, Refreshed, LiveAccounts;
    CreatedIsReadBack(ids, gone, id);
    if |kept| < 16 {
      NewOneIsLive(w, loaded, after, ids, gone, mailbox, id, disabled, now);
    } else {
      assert forall x :: x in kept[..16] ==> x in kept;
    }
  }

  lemma NewOneIsLive(w: World, loaded: World, after: World, ids: seq<string>, gone: set<string>, mailbox: string, id: string,
                     disabled: set<string>, now: int)
    requires ids == ReadIds(w.cookies) && loaded == Loaded(w, disabled, now) && gone == OfMailbox(w.sessions, ids, mailbox)
    requires id !in ids && id !in w.sessions && mailbox !in disabled
    requires after.sessions == (loaded.sessions - gone)[id := Session(mailbox, now + TTL_MS)]
    requires ReadIds(after.cookies) == Without(ids, gone) + [id]
    ensures LiveAccounts(after, disabled, now) == Without(LiveAccounts(w, disabled, now), gone) + [id]
  {
    var kept := Without(ids, gone);
    RefreshedAlike(w.sessions, disabled, ids, now, kept);
    RefreshKeepsMailboxes(w.sessions, Live(w.sessions, disabled, now, ids), now);
    hide Live, ReadIds, Refreshed;
    LiveDependsOnRows(after.sessions, loaded.sessions, disabled, now, kept);
    LiveWithout(w.sessions, disabled, now, ids, gone, mailbox);
    LastIsLive(after.sessions, disabled, now, kept, id);
  }

  lemma LastIsLive(sessions: map<string, Session>, disabled: set<string>, now: int, ids: seq<string>, id: string)
    requires Alive(sessions, disabled, now, id)
    requires forall x :: x in ids && x in sessions ==> sessions[x].mailbox != sessions[id].mailbox
    ensures Live(sessions, disabled, now, ids + [id]) == Live(sessions, disabled, now, ids) + [id]
  {
    assert (ids + [id])[..|ids|] == ids;
  }

  /** A sign-in is turned away exactly when five accounts or more are signed in and none of them is the mailbox. */
  lemma TurnedAwayIff(w: World, mailbox: string, id: string, disabled: set<string>, now: int, sent: bool)
    requires id !in w.sessions
    ensures var live, after := LiveAccounts(w, disabled, now), SignedIn(w, mailbox, id, disabled, now, sent);
      && (id !in after.sessions <==>
            |live| >= 5 && forall x :: x in live && x in w.sessions ==> w.sessions[x].mailbox != mailbox)
      && (id !in after.sessions ==> after.cookies.active == w.cookies.active && after.sessions.Keys == w.sessions.Keys)
  {
    RefreshKeepsMailboxes(w.sessions, Live(w.sessions, disabled, now, ReadIds(w.cookies)), now);
    hide Live, ReadIds, LiveAccounts;
  }

  // ---- signing out --------------------------------------------------------------------------

  /** Signing out of everything ends every session the browser names, of the active account the active one, of a mailbox its live one. */
  lemma SignOutEnds(w: World, which: Which, disabled: set<string>, now: int, id: string)
    requires id in w.sessions
    ensures id !in SignedOut(w, which, disabled, now).sessions <==>
      match which
      case All => id in ReadIds(w.cookies)
      case Active => w.cookies.active == Some(id)
      case Mailbox(m) => id in LiveAccounts(w, disabled, now) && w.sessions[id].mailbox == m
    ensures which == All ==> LiveAccounts(SignedOut(w, which, disabled, now), disabled, now) == []
  {
    if which == All {
      SignOutRemovesOnlyTheChosen(w, which, disabled, now);
      LiveAreRead(w, disabled, now);
      hide Live, ReadIds, LiveAccounts;
      NothingRemains(LiveAccounts(w, disabled, now), Doomed(w, which, disabled, now));
    }
    hide Live, ReadIds, LiveAccounts;
  }

  lemma LiveAreRead(w: World, disabled: set<string>, now: int)
    ensures forall x :: x in LiveAccounts(w, disabled, now) ==> x in ReadIds(w.cookies)
  {
  }

  lemma {:induction false} NothingRemains(ids: seq<string>, gone: set<string>)
    requires forall x :: x in ids ==> x in gone
    ensures Without(ids, gone) == []
  {
    if ids != [] {
      NothingRemains(ids[..|ids| - 1], gone);
      assert ids[|ids| - 1] in ids;
    }
  }

  // ---- who is signed in -----------------------------------------------------------------------

  /** The row has not expired and its mailbox may sign in. */
  ghost predicate Counts(sessions: map<string, Session>, disabled: set<string>, now: int, id: string) {
    id in sessions && sessions[id].expires > now && sessions[id].mailbox !in disabled
  }

  lemma HasMailboxIff(sessions: map<string, Session>, disabled: set<string>, now: int, ids: seq<string>, mailbox: string)
    ensures HasMailbox(sessions, Live(sessions, disabled, now, ids), mailbox)
       <==> exists j :: 0 <= j < |ids| && Counts(sessions, disabled, now, ids[j]) && sessions[ids[j]].mailbox == mailbox
  {
    LiveCountsMailboxes(sessions, disabled, now, ids);
    hide Live, HasMailbox;
    if j :| 0 <= j < |ids| && Counts(sessions, disabled, now, ids[j]) && sessions[ids[j]].mailbox == mailbox {
      assert ids[j] in IdSet(ids);
    }
    if mailbox in MailboxesOf(sessions, disabled, now, IdSet(ids)) {
      var id :| id in IdSet(ids) && Alive(sessions, disabled, now, id) && sessions[id].mailbox == mailbox;
      var j :| 0 <= j < |ids| && ids[j] == id;
    }
  }

  /** An id is among the live ones exactly when it counts and none before it counts for the same mailbox. */
  lemma {:induction false} LiveIff(sessions: map<string, Session>, disabled: set<string>, now: int, ids: seq<string>, i: nat)
    requires i < |ids| && forall x, y :: 0 <= x < y < |ids| ==> ids[x] != ids[y]
    ensures ids[i] in Live(sessions, disabled, now, ids) <==>
      && Counts(sessions, disabled, now, ids[i])
      && forall j :: 0 <= j < i ==> !(Counts(sessions, disabled, now, ids[j]) && sessions[ids[j]].mailbox == sessions[ids[i]].mailbox)
  {
    var before, last := ids[..|ids| - 1], ids[|ids| - 1];
    assert ids == before + [last];
    hide Live, HasMailbox;
    LiveMore(sessions, disabled, now, before, last);
    LiveAreThere(sessions, disabled, now, before);
    if i < |before| {
      LiveIff(sessions, disabled, now, before, i);
    } else {
      assert last !in before;
      if last in sessions {
        HasMailboxIff(sessions, disabled, now, before, sessions[last].mailbox);
      }
    }
  }
}
