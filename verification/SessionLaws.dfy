/** What holds over every run of sign-ins, switches and sign-outs in one browser. */
module SessionLaws {
  import opened Text
  import opened Sessions

  // ---- one session per mailbox ------------------------------------------------------------------

  ghost predicate Named(c: Cookies, id: string) {
    id in c.accounts || c.active == Some(id)
  }

  /** The sessions the cookies name belong to pairwise different mailboxes. */
  ghost predicate Apart(w: World) {
    forall x, y :: Named(w.cookies, x) && Named(w.cookies, y) && x != y && x in w.sessions && y in w.sessions ==>
      w.sessions[x].mailbox != w.sessions[y].mailbox
  }

  /** What can happen to the browser and the rows it names; `Purge` covers expiry clean-up and revocation. */
  datatype Op =
    | SignIn(mailbox: string, id: string, sent: bool)
    | Switch(mailbox: string)
    | SignOut(which: Which)
    | Load
    | Purge(ids: set<string>)
    | Elsewhere(mailbox: string, id: string, expires: int)

  /** Session ids are random: a new one is neither in use nor named by the browser. */
  ghost predicate Fresh(w: World, op: Op) {
    (op.SignIn? || op.Elsewhere?) ==> op.id !in w.sessions && !Named(w.cookies, op.id)
  }

  ghost function Step(w: World, op: Op, disabled: set<string>, now: int): World {
    match op
    case SignIn(mailbox, id, sent) => SignedIn(w, mailbox, id, disabled, now, sent)
    case Switch(mailbox) => Switched(w, mailbox, disabled, now)
    case SignOut(which) => SignedOut(w, which, disabled, now)
    case Load => Loaded(w, disabled, now)
    case Purge(ids) => w.(sessions := w.sessions - ids)
    case Elsewhere(mailbox, id, expires) => w.(sessions := w.sessions[id := Session(mailbox, expires)])
  }

  /** Naming no new id and changing no mailbox keeps the sessions apart. */
  lemma ShrinkingKeepsApart(w: World, after: World)
    requires Apart(w)
    requires forall id :: Named(after.cookies, id) ==> Named(w.cookies, id)
    requires forall id :: Named(after.cookies, id) && id in after.sessions ==>
      id in w.sessions && after.sessions[id].mailbox == w.sessions[id].mailbox
    ensures Apart(after)
  {
  }

  lemma FirstOfIsMember(sessions: map<string, Session>, ids: seq<string>, mailbox: string)
    ensures var hit := FirstOf(sessions, ids, mailbox);
      hit.Some? ==> hit.value in ids && hit.value in sessions && sessions[hit.value].mailbox == mailbox
  {
  }

  lemma LoadedNames(w: World, disabled: set<string>, now: int)
    ensures forall id :: Named(Loaded(w, disabled, now).cookies, id) ==> Named(w.cookies, id)
    ensures Loaded(w, disabled, now).sessions.Keys == w.sessions.Keys
    ensures forall id :: id in w.sessions ==> Loaded(w, disabled, now).sessions[id].mailbox == w.sessions[id].mailbox
  {
  }

  lemma CreatedKeepsApart(w: World, ids: seq<string>, mailbox: string, id: string, now: int)
    requires Apart(w) && id !in w.sessions && (forall x :: x in ids ==> Named(w.cookies, x)) && !Named(w.cookies, id)
    ensures Apart(Created(w, ids, mailbox, id, now))
  {
    var after := Created(w, ids, mailbox, id, now);
    forall x, y | Named(after.cookies, x) && Named(after.cookies, y) && x != y && x in after.sessions && y in after.sessions
      ensures after.sessions[x].mailbox != after.sessions[y].mailbox
    {
      assert x != id ==> x in ids && x !in OfMailbox(w.sessions, ids, mailbox);
      assert y != id ==> y in ids && y !in OfMailbox(w.sessions, ids, mailbox);
    }
  }

  lemma StepKeepsApart(w: World, op: Op, disabled: set<string>, now: int)
    requires Apart(w) && Fresh(w, op)
    ensures Apart(Step(w, op, disabled, now))
  {
    hide Loaded, LiveAccounts, Created, Live;
    LoadedNames(w, disabled, now);
    var loaded := Loaded(w, disabled, now);
    match op
    case SignIn(mailbox, id, sent) =>
      ShrinkingKeepsApart(w, World(loaded.sessions, w.cookies));
      ShrinkingKeepsApart(w, loaded);
      ReadNames(w.cookies);
      CreatedFromLoaded(w, mailbox, id, disabled, now);
    case Switch(mailbox) =>
      FirstOfIsMember(w.sessions, LiveAccounts(w, disabled, now), mailbox);
      LiveNames(w, disabled, now);
      ShrinkingKeepsApart(w, Switched(w, mailbox, disabled, now));
    case SignOut(which) =>
      LiveNames(w, disabled, now);
      ShrinkingKeepsApart(w, SignedOut(w, which, disabled, now));
    case Load => ShrinkingKeepsApart(w, loaded);
    case Purge(ids) => ShrinkingKeepsApart(w, Step(w, op, disabled, now));
    case Elsewhere(mailbox, id, expires) => ShrinkingKeepsApart(w, Step(w, op, disabled, now));
  }

  lemma ReadNames(c: Cookies)
    ensures forall id :: id in ReadIds(c) ==> Named(c, id)
  {
  }

  lemma LiveNames(w: World, disabled: set<string>, now: int)
    ensures forall id :: id in LiveAccounts(w, disabled, now) ==> Named(w.cookies, id)
  {
  }

  lemma CreatedFromLoaded(w: World, mailbox: string, id: string, disabled: set<string>, now: int)
    requires Apart(w) && id !in w.sessions && !Named(w.cookies, id)
    ensures Apart(Created(Loaded(w, disabled, now), ReadIds(w.cookies), mailbox, id, now))
  {
    hide Loaded;
    LoadedNames(w, disabled, now);
    ReadNames(w.cookies);
    var reading := World(Loaded(w, disabled, now).sessions, w.cookies);
    ShrinkingKeepsApart(w, reading);
    CreatedKeepsApart(reading, ReadIds(w.cookies), mailbox, id, now);
  }

  // ---- signing out --------------------------------------------------------------------------------

  /** Live sessions are one per mailbox, so none is named twice. */
  lemma {:induction false} LiveIsDistinct(sessions: map<string, Session>, disabled: set<string>, now: int, ids: seq<string>, i: nat, j: nat)
    requires i < j < |Live(sessions, disabled, now, ids)|
    ensures var live := Live(sessions, disabled, now, ids);
      live[i] in sessions && live[j] in sessions && sessions[live[i]].mailbox != sessions[live[j]].mailbox
  {
    var before := Live(sessions, disabled, now, ids[..|ids| - 1]);
    if j < |before| {
      LiveIsDistinct(sessions, disabled, now, ids[..|ids| - 1], i, j);
    } else {
      assert before[i] in before;
    }
  }

  ghost predicate Differ(sessions: map<string, Session>, x: string, y: string) {
    x in sessions && y in sessions && sessions[x].mailbox != sessions[y].mailbox
  }

  ghost predicate OnePerMailbox(sessions: map<string, Session>, ids: seq<string>) {
    forall i, j :: 0 <= i < j < |ids| ==> Differ(sessions, ids[i], ids[j])
  }

  /** Live sessions of different mailboxes all stay. */
  lemma {:induction false} LiveKeeps(sessions: map<string, Session>, disabled: set<string>, now: int, ids: seq<string>)
    requires OnePerMailbox(sessions, ids) && forall id :: id in ids ==> Alive(sessions, disabled, now, id)
    ensures Live(sessions, disabled, now, ids) == ids
  {
    if ids != [] {
      var before, last := ids[..|ids| - 1], ids[|ids| - 1];
      OnePerMailboxBefore(sessions, ids);
      LiveKeeps(sessions, disabled, now, before);
      assert Alive(sessions, disabled, now, last);
      AliveIsThere(sessions, disabled, now, last);
      assert !HasMailbox(sessions, before, sessions[last].mailbox);
      hide Alive, HasMailbox, OnePerMailbox;
      assert Live(sessions, disabled, now, ids) == before + [last];
    }
  }

  lemma OnePerMailboxBefore(sessions: map<string, Session>, ids: seq<string>)
    requires OnePerMailbox(sessions, ids) && ids != []
    ensures OnePerMailbox(sessions, ids[..|ids| - 1])
    ensures forall id :: id in ids[..|ids| - 1] && id in sessions && ids[|ids| - 1] in sessions ==>
      sessions[id].mailbox != sessions[ids[|ids| - 1]].mailbox
  {
    var before := ids[..|ids| - 1];
    forall i, j | 0 <= i < j < |before|
      ensures Differ(sessions, before[i], before[j])
    {
      assert Differ(sessions, ids[i], ids[j]);
    }
    var last := ids[|ids| - 1];
    forall id | id in before
      ensures Differ(sessions, id, last)
    {
      var i :| 0 <= i < |before| && before[i] == id;
      assert Differ(sessions, ids[i], ids[|ids| - 1]);
    }
  }

  lemma {:induction false} WithoutKeepsOrder(sessions: map<string, Session>, ids: seq<string>, gone: set<string>)
    requires OnePerMailbox(sessions, ids)
    ensures OnePerMailbox(sessions - gone, Without(ids, gone)) && |Without(ids, gone)| <= |ids|
    ensures forall i, j :: 0 <= i < j < |Without(ids, gone)| ==> Without(ids, gone)[i] != Without(ids, gone)[j]
  {
    if ids != [] {
      var before, last := ids[..|ids| - 1], ids[|ids| - 1];
      WithoutKeepsOrder(sessions, before, gone);
      var kept := Without(before, gone);
      forall i | 0 <= i < |kept| && last !in gone
        ensures Differ(sessions, kept[i], last)
      {
        assert kept[i] in kept;
        var k :| 0 <= k < |before| && before[k] == kept[i];
        assert ids[k] == before[k];
      }
    }
  }

  lemma {:induction false} DistinctKeeps(ids: seq<string>)
    requires forall i, j :: 0 <= i < j < |ids| ==> ids[i] != ids[j]
    ensures Distinct(ids) == ids
  {
    if ids != [] {
      var before := ids[..|ids| - 1];
      assert forall i, j :: 0 <= i < j < |before| ==> before[i] != before[j];
      DistinctKeeps(before);
    }
  }

  lemma OnePerMailboxIsDistinct(sessions: map<string, Session>, ids: seq<string>)
    requires OnePerMailbox(sessions, ids)
    ensures forall i, j :: 0 <= i < j < |ids| ==> ids[i] != ids[j]
  {
  }

  /**
   * After a sign-out exactly the chosen accounts are gone, the others are signed in as before and in the same order, and
   * the active one stays active if it is among them; otherwise the first of them takes over.
   */
  lemma SignOutRemovesOnlyTheChosen(w: World, which: Which, disabled: set<string>, now: int)
    ensures var after, rest := SignedOut(w, which, disabled, now), Without(LiveAccounts(w, disabled, now), Doomed(w, which, disabled, now));
      && LiveAccounts(after, disabled, now) == rest
      && (w.cookies.active.Some? && w.cookies.active.value in rest ==> after.cookies.active == w.cookies.active)
      && (w.cookies.active.None? || w.cookies.active.value !in rest ==>
            after.cookies.active == if rest == [] then None else Some(rest[0]))
      && (forall id :: id in after.sessions <==> id in w.sessions && id !in Doomed(w, which, disabled, now))
  {
    hide Doomed, LiveAccounts;
    var doomed := Doomed(w, which, disabled, now);
    var rest := Without(LiveAccounts(w, disabled, now), doomed);
    RemainingStayLive(w, doomed, disabled, now);
    LiveAccountsOf(w.sessions - doomed, Cookies(rest, NextActive(rest, w.cookies.active)), disabled, now);
  }

  /** Cookies that list live sessions of different mailboxes are read back as they are. */
  lemma LiveAccountsOf(sessions: map<string, Session>, c: Cookies, disabled: set<string>, now: int)
    requires OnePerMailbox(sessions, c.accounts) && |c.accounts| <= MAX_COOKIE_IDS
    requires forall id :: id in c.accounts ==> Alive(sessions, disabled, now, id)
    requires c.active.Some? ==> c.active.value in c.accounts
    ensures LiveAccounts(World(sessions, c), disabled, now) == c.accounts
  {
    hide Live, Distinct;
    OnePerMailboxIsDistinct(sessions, c.accounts);
    DistinctKeeps(c.accounts);
    LiveKeeps(sessions, disabled, now, c.accounts);
  }

  lemma RemainingStayLive(w: World, doomed: set<string>, disabled: set<string>, now: int)
    ensures var rest := Without(LiveAccounts(w, disabled, now), doomed);
      && OnePerMailbox(w.sessions - doomed, rest) && |rest| <= MAX_COOKIE_IDS
      && forall id :: id in rest ==> Alive(w.sessions - doomed, disabled, now, id)
  {
    hide Live, ReadIds;
    var live := LiveAccounts(w, disabled, now);
    forall i, j | 0 <= i < j < |live|
      ensures Differ(w.sessions, live[i], live[j])
    {
      LiveIsDistinct(w.sessions, disabled, now, ReadIds(w.cookies), i, j);
    }
    WithoutKeepsOrder(w.sessions, live, doomed);
    AtMostSixteen(w.cookies);
  }

  lemma AtMostSixteen(c: Cookies)
    ensures |ReadIds(c)| <= MAX_COOKIE_IDS
  {
  }

  /** Signing out one account by its mailbox, or the active one, dooms no other account. */
  lemma OneAccountIsDoomed(w: World, mailbox: string, disabled: set<string>, now: int, x: string, y: string)
    requires x in Doomed(w, Mailbox(mailbox), disabled, now) && y in Doomed(w, Mailbox(mailbox), disabled, now)
    ensures x == y && w.sessions[x].mailbox == mailbox
  {
    var live := LiveAccounts(w, disabled, now);
    var i :| 0 <= i < |live| && live[i] == x;
    var j :| 0 <= j < |live| && live[j] == y;
    if i < j {
      LiveIsDistinct(w.sessions, disabled, now, ReadIds(w.cookies), i, j);
    } else if j < i {
      LiveIsDistinct(w.sessions, disabled, now, ReadIds(w.cookies), j, i);
    }
  }

  // ---- at most five accounts ------------------------------------------------------------------------

  /** The mailboxes of the live sessions among `ids`. */
  ghost function MailboxesOf(sessions: map<string, Session>, disabled: set<string>, now: int, ids: set<string>): set<string> {
    set id | id in ids && Alive(sessions, disabled, now, id) :: sessions[id].mailbox
  }

  ghost function IdSet(ids: seq<string>): set<string> {
    set id | id in ids
  }

  /** The mailboxes of every live session the cookies name, read or not. */
  ghost function NamedMailboxes(w: World, disabled: set<string>, now: int): set<string> {
    MailboxesOf(w.sessions, disabled, now,
      IdSet(w.cookies.accounts) + if w.cookies.active.Some? then {w.cookies.active.value} else {})
  }

  lemma {:induction false} LiveCountsMailboxes(sessions: map<string, Session>, disabled: set<string>, now: int, ids: seq<string>)
    ensures Hold(sessions, Live(sessions, disabled, now, ids), MailboxesOf(sessions, disabled, now, IdSet(ids)))
  {
    hide Alive;
    if ids == [] {
      assert MailboxesOf(sessions, disabled, now, IdSet(ids)) == {};
    } else {
      var before, last := ids[..|ids| - 1], ids[|ids| - 1];
      LiveCountsMailboxes(sessions, disabled, now, before);
      MailboxesStep(sessions, disabled, now, before, last);
      assert ids == before + [last];
      var live, boxes := Live(sessions, disabled, now, before), MailboxesOf(sessions, disabled, now, IdSet(before));
      if Alive(sessions, disabled, now, last) {
        AliveIsThere(sessions, disabled, now, last);
        assert Live(sessions, disabled, now, ids) == if HasMailbox(sessions, live, sessions[last].mailbox) then live else live + [last];
        hide *;
        OneMoreLive(sessions, live, boxes, last);
      } else {
        assert Live(sessions, disabled, now, ids) == live;
        hide *;
      }
    }
  }

  ghost predicate Hold(sessions: map<string, Session>, ids: seq<string>, boxes: set<string>) {
    |ids| == |boxes| && forall m :: HasMailbox(sessions, ids, m) <==> m in boxes
  }

  lemma OneMoreLive(sessions: map<string, Session>, live: seq<string>, boxes: set<string>, last: string)
    requires Hold(sessions, live, boxes) && last in sessions
    ensures Hold(sessions, if HasMailbox(sessions, live, sessions[last].mailbox) then live else live + [last],
                 boxes + {sessions[last].mailbox})
  {
    hide HasMailbox;
    LiveStep(sessions, live, last);
    if sessions[last].mailbox in boxes {
      assert boxes + {sessions[last].mailbox} == boxes;
    }
  }

  lemma MailboxesStep(sessions: map<string, Session>, disabled: set<string>, now: int, ids: seq<string>, last: string)
    ensures MailboxesOf(sessions, disabled, now, IdSet(ids + [last]))
         == MailboxesOf(sessions, disabled, now, IdSet(ids))
            + if Alive(sessions, disabled, now, last) then {sessions[last].mailbox} else {}
  {
    hide Alive;
    assert IdSet(ids + [last]) == IdSet(ids) + {last};
    if Alive(sessions, disabled, now, last) {
      AliveIsThere(sessions, disabled, now, last);
    }
  }

  lemma AliveIsThere(sessions: map<string, Session>, disabled: set<string>, now: int, id: string)
    requires Alive(sessions, disabled, now, id)
    ensures id in sessions
  {
  }

  lemma LiveStep(sessions: map<string, Session>, ids: seq<string>, last: string)
    requires last in sessions
    ensures forall m :: HasMailbox(sessions, ids + [last], m) <==> HasMailbox(sessions, ids, m) || m == sessions[last].mailbox
  {
    forall m
      ensures HasMailbox(sessions, ids + [last], m) <==> HasMailbox(sessions, ids, m) || m == sessions[last].mailbox
    {
      if id :| id in ids && id in sessions && sessions[id].mailbox == m {
        assert id in ids + [last];
      }
      assert last in ids + [last];
    }
  }

  /** The row of an id after loading is the old one, or a prolonged one that was live and named. */
  lemma LoadedRows(w: World, disabled: set<string>, now: int, id: string)
    requires id in w.sessions
    ensures id in Loaded(w, disabled, now).sessions
    ensures var row := Loaded(w, disabled, now).sessions[id];
      row == w.sessions[id]
      || (row.mailbox == w.sessions[id].mailbox && Alive(w.sessions, disabled, now, id) && id in ReadIds(w.cookies))
  {
  }

  /** Naming no new id, with rows unchanged or prolonged while live: whoever is signed in later was signed in before. */
  lemma NoOneNew(w: World, after: World, disabled: set<string>, now: int, disabled': set<string>, now': int)
    requires disabled <= disabled' && now <= now'
    requires forall id :: Named(after.cookies, id) ==> Named(w.cookies, id)
    requires forall id :: id in after.sessions && Named(after.cookies, id) ==>
      id in w.sessions && after.sessions[id].mailbox == w.sessions[id].mailbox
      && (after.sessions[id] == w.sessions[id] || Alive(w.sessions, disabled, now, id))
    ensures NamedMailboxes(after, disabled', now') <= NamedMailboxes(w, disabled, now)
  {
    forall m | m in NamedMailboxes(after, disabled', now')
      ensures m in NamedMailboxes(w, disabled, now)
    {
      var id :| Named(after.cookies, id) && Alive(after.sessions, disabled', now', id) && after.sessions[id].mailbox == m;
      AliveIsThere(after.sessions, disabled', now', id);
      AliveEarlier(w.sessions, after.sessions, disabled, now, disabled', now', id);
      NamedCounts(w, disabled, now, id);
    }
  }

  lemma NamedCounts(w: World, disabled: set<string>, now: int, id: string)
    requires Named(w.cookies, id) && Alive(w.sessions, disabled, now, id)
    ensures w.sessions[id].mailbox in NamedMailboxes(w, disabled, now)
  {
  }

  lemma LoadedNoOneNew(w: World, disabled: set<string>, now: int, disabled': set<string>, now': int, cookies: Cookies)
    requires disabled <= disabled' && now <= now'
    requires forall id :: Named(cookies, id) ==> Named(w.cookies, id)
    ensures NamedMailboxes(World(Loaded(w, disabled, now).sessions, cookies), disabled', now') <= NamedMailboxes(w, disabled, now)
  {
    hide Loaded, NamedMailboxes, Alive, Named, ReadIds;
    var after := World(Loaded(w, disabled, now).sessions, cookies);
    LoadedNames(w, disabled, now);
    forall id | id in after.sessions
      ensures id in w.sessions && after.sessions[id].mailbox == w.sessions[id].mailbox
      ensures after.sessions[id] == w.sessions[id] || Alive(w.sessions, disabled, now, id)
    {
      LoadedRows(w, disabled, now, id);
    }
    NoOneNew(w, after, disabled, now, disabled', now');
  }

  /** A sign-in adds its mailbox to those live when it was made, and no other. */
  lemma SignInAddsOne(w: World, mailbox: string, id: string, disabled: set<string>, now: int, disabled': set<string>, now': int)
    requires disabled <= disabled' && now <= now'
    ensures NamedMailboxes(Created(Loaded(w, disabled, now), ReadIds(w.cookies), mailbox, id, now), disabled', now')
         <= MailboxesOf(w.sessions, disabled, now, IdSet(ReadIds(w.cookies))) + {mailbox}
  {
    hide Loaded, ReadIds, Created;
    var loaded, ids := Loaded(w, disabled, now), ReadIds(w.cookies);
    var after := Created(loaded, ids, mailbox, id, now);
    LoadedNames(w, disabled, now);
    forall m | m in NamedMailboxes(after, disabled', now')
      ensures m in MailboxesOf(w.sessions, disabled, now, IdSet(ids)) + {mailbox}
    {
      var x :| x in IdSet(after.cookies.accounts) + (if after.cookies.active.Some? then {after.cookies.active.value} else {})
            && Alive(after.sessions, disabled', now', x) && after.sessions[x].mailbox == m;
      CreatedRows(loaded, ids, mailbox, id, now, x);
      AliveIsThere(after.sessions, disabled', now', x);
      if x != id {
        LoadedRows(w, disabled, now, x);
        AliveEarlier(w.sessions, after.sessions, disabled, now, disabled', now', x);
      }
    }
  }

  lemma CreatedRows(w: World, ids: seq<string>, mailbox: string, id: string, now: int, x: string)
    ensures var after := Created(w, ids, mailbox, id, now);
      && after.cookies.active == Some(id) && id in after.sessions && after.sessions[id].mailbox == mailbox
      && (x in after.cookies.accounts && x != id ==> x in ids)
      && (x in after.sessions && x != id ==> x in w.sessions && after.sessions[x] == w.sessions[x])
  {
  }

  lemma AliveEarlier(sessions: map<string, Session>, later: map<string, Session>, disabled: set<string>, now: int,
                     disabled': set<string>, now': int, x: string)
    requires disabled <= disabled' && now <= now' && x in sessions && Alive(later, disabled', now', x)
    requires later[x] == sessions[x] || (later[x].mailbox == sessions[x].mailbox && Alive(sessions, disabled, now, x))
    ensures Alive(sessions, disabled, now, x) && sessions[x].mailbox == later[x].mailbox
  {
  }

  lemma SignInKeepsFive(w: World, mailbox: string, id: string, disabled: set<string>, now: int, disabled': set<string>, now': int)
    requires disabled <= disabled' && now <= now'
    requires |NamedMailboxes(w, disabled, now)| <= MAX_ACCOUNTS && !TooMany(w, mailbox, disabled, now)
    ensures |NamedMailboxes(Created(Loaded(w, disabled, now), ReadIds(w.cookies), mailbox, id, now), disabled', now')| <= MAX_ACCOUNTS
  {
    hide Loaded, ReadIds, Created, Live, NamedMailboxes, MailboxesOf, HasMailbox;
    var live := MailboxesOf(w.sessions, disabled, now, IdSet(ReadIds(w.cookies)));
    LiveCountsMailboxes(w.sessions, disabled, now, ReadIds(w.cookies));
    SignInAddsOne(w, mailbox, id, disabled, now, disabled', now');
    SmallerSet(NamedMailboxes(Created(Loaded(w, disabled, now), ReadIds(w.cookies), mailbox, id, now), disabled', now'), live + {mailbox});
    ReadIsNamed(w, disabled, now);
    SmallerSet(live, NamedMailboxes(w, disabled, now));
    if mailbox in live {
      assert live + {mailbox} == live;
    }
  }

  lemma ReadIsNamed(w: World, disabled: set<string>, now: int)
    ensures MailboxesOf(w.sessions, disabled, now, IdSet(ReadIds(w.cookies))) <= NamedMailboxes(w, disabled, now)
  {
    ReadNames(w.cookies);
  }

  /** A step leaves at most five mailboxes signed in, now and at any later moment at which no one was re-enabled. */
  lemma StepKeepsFive(w: World, op: Op, disabled: set<string>, now: int, disabled': set<string>, now': int)
    requires disabled <= disabled' && now <= now' && Fresh(w, op)
    requires |NamedMailboxes(w, disabled, now)| <= MAX_ACCOUNTS
    ensures |NamedMailboxes(Step(w, op, disabled, now), disabled', now')| <= MAX_ACCOUNTS
  {
    if op.SignIn? && !TooMany(w, op.mailbox, disabled, now) {
      SignInKeepsFive(w, op.mailbox, op.id, disabled, now, disabled', now');
    } else {
      OtherStepsAddNoOne(w, op, disabled, now, disabled', now');
      SmallerSet(NamedMailboxes(Step(w, op, disabled, now), disabled', now'), NamedMailboxes(w, disabled, now));
    }
  }

  lemma OtherStepsAddNoOne(w: World, op: Op, disabled: set<string>, now: int, disabled': set<string>, now': int)
    requires disabled <= disabled' && now <= now' && Fresh(w, op)
    requires op.SignIn? ==> TooMany(w, op.mailbox, disabled, now)
    ensures NamedMailboxes(Step(w, op, disabled, now), disabled', now') <= NamedMailboxes(w, disabled, now)
  {
    hide Loaded, LiveAccounts, NamedMailboxes, TooMany;
    var loaded := Loaded(w, disabled, now);
    LoadedNames(w, disabled, now);
    LiveNames(w, disabled, now);
    match op
    case SignIn(mailbox, id, sent) =>
      LoadedNoOneNew(w, disabled, now, disabled', now', loaded.cookies);
      LoadedNoOneNew(w, disabled, now, disabled', now', w.cookies);
    case Switch(mailbox) =>
      FirstOfIsMember(w.sessions, LiveAccounts(w, disabled, now), mailbox);
      LoadedNoOneNew(w, disabled, now, disabled', now', Switched(w, mailbox, disabled, now).cookies);
    case SignOut(which) => NoOneNew(w, SignedOut(w, which, disabled, now), disabled, now, disabled', now');
    case Load => LoadedNoOneNew(w, disabled, now, disabled', now', loaded.cookies);
    case Purge(ids) => NoOneNew(w, Step(w, op, disabled, now), disabled, now, disabled', now');
    case Elsewhere(mailbox, id, expires) => NoOneNew(w, Step(w, op, disabled, now), disabled, now, disabled', now');
  }

  // ---- runs -----------------------------------------------------------------------------------------

  datatype Event = Event(op: Op, disabled: set<string>, now: int)

  /** A run of one browser from empty cookies. */
  ghost predicate IsRun(events: seq<Event>, worlds: seq<World>) {
    && |worlds| == |events| + 1 && worlds[0].cookies == Cookies([], None)
    && forall i :: 0 <= i < |events| ==>
         Fresh(worlds[i], events[i].op) && worlds[i + 1] == Step(worlds[i], events[i].op, events[i].disabled, events[i].now)
  }

  /** In every run the sessions a browser names belong to pairwise different mailboxes. */
  lemma {:induction false} SessionsStayApart(events: seq<Event>, worlds: seq<World>, n: nat)
    requires IsRun(events, worlds) && n < |worlds|
    ensures Apart(worlds[n])
  {
    hide Step, Apart;
    if n == 0 {
      NoSessionsAreApart(worlds[0]);
    } else {
      SessionsStayApart(events, worlds, n - 1);
      assert worlds[n] == Step(worlds[n - 1], events[n - 1].op, events[n - 1].disabled, events[n - 1].now);
      StepKeepsApart(worlds[n - 1], events[n - 1].op, events[n - 1].disabled, events[n - 1].now);
    }
  }

  lemma NoSessionsAreApart(w: World)
    requires w.cookies == Cookies([], None)
    ensures Apart(w) && forall disabled, now :: NamedMailboxes(w, disabled, now) == {}
  {
  }

  /** Time moves forward and nothing disabled is enabled again. */
  ghost predicate OnlyDisabling(events: seq<Event>) {
    forall i, j :: 0 <= i < j < |events| ==> events[i].disabled <= events[j].disabled && events[i].now <= events[j].now
  }

  /** As long as nothing disabled is enabled again, a browser is never signed in to more than five mailboxes. */
  lemma {:induction false} NeverMoreThanFive(events: seq<Event>, worlds: seq<World>, n: nat, disabled: set<string>, now: int)
    requires IsRun(events, worlds) && OnlyDisabling(events) && n < |worlds|
    requires n > 0 ==> events[n - 1].disabled <= disabled && events[n - 1].now <= now
    ensures |NamedMailboxes(worlds[n], disabled, now)| <= 5
    ensures |LiveAccounts(worlds[n], disabled, now)| <= 5
  {
    hide Step, NamedMailboxes, LiveAccounts;
    if n == 0 {
      NoSessionsAreApart(worlds[0]);
    } else {
      var e := events[n - 1];
      assert n > 1 ==> events[n - 2].disabled <= e.disabled && events[n - 2].now <= e.now;
      NeverMoreThanFive(events, worlds, n - 1, e.disabled, e.now);
      assert worlds[n] == Step(worlds[n - 1], e.op, e.disabled, e.now);
      StepKeepsFive(worlds[n - 1], e.op, e.disabled, e.now, disabled, now);
    }
    LiveAreNamed(worlds[n], disabled, now);
  }

  lemma LiveAreNamed(w: World, disabled: set<string>, now: int)
    ensures |LiveAccounts(w, disabled, now)| <= |NamedMailboxes(w, disabled, now)|
  {
    LiveCountsMailboxes(w.sessions, disabled, now, ReadIds(w.cookies));
    ReadIsNamed(w, disabled, now);
    SmallerSet(MailboxesOf(w.sessions, disabled, now, IdSet(ReadIds(w.cookies))), NamedMailboxes(w, disabled, now));
  }
}
