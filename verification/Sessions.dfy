/** Several signed-in mailboxes in one browser: session rows, the two cookies naming them, and what keeps them apart. */
module Sessions {
  import opened Text

  const DAY_MS := 24 * 3600 * 1000
  const TTL_MS := 30 * DAY_MS
  const REFRESH_AFTER_MS := DAY_MS
  const MAX_COOKIE_IDS := 16
  const MAX_ACCOUNTS := 5

  datatype Session = Session(mailbox: string, expires: int)

  /** The accounts cookie, as the list of ids it joins, and the active-session cookie. */
  datatype Cookies = Cookies(accounts: seq<string>, active: Option<string>)

  /** The session rows and the cookies one browser holds. */
  datatype World = World(sessions: map<string, Session>, cookies: Cookies)

  // ---- reading cookies ------------------------------------------------------------------------

  /** Each id once, where it first appears. */
  function Distinct(ids: seq<string>): (r: seq<string>)
    ensures forall id :: id in r <==> id in ids
  {
    if ids == [] then []
    else
      var before, last := Distinct(ids[..|ids| - 1]), ids[|ids| - 1];
      if last in ids[..|ids| - 1] then before else before + [last]
  }

  function UpTo<T>(s: seq<T>, n: nat): seq<T> {
    if n < |s| then s[..n] else s
  }

  /** The ids a request names: the accounts cookie, then the active one, at most 16. */
  function ReadIds(c: Cookies): (r: seq<string>)
    ensures forall id :: id in r ==> id in c.accounts || c.active == Some(id)
  {
    var ids := if c.active.Some? && c.active.value !in c.accounts then c.accounts + [c.active.value] else c.accounts;
    UpTo(Distinct(ids), MAX_COOKIE_IDS)
  }

  // ---- live sessions --------------------------------------------------------------------------

  /** A row that has not expired, of a mailbox that may sign in. */
  predicate Alive(sessions: map<string, Session>, disabled: set<string>, now: int, id: string) {
    id in sessions && sessions[id].expires > now && sessions[id].mailbox !in disabled
  }

  predicate HasMailbox(sessions: map<string, Session>, ids: seq<string>, mailbox: string) {
    exists id :: id in ids && id in sessions && sessions[id].mailbox == mailbox
  }

  /** Those ids, in their order, that name a live session of a mailbox no earlier one belongs to. */
  function Live(sessions: map<string, Session>, disabled: set<string>, now: int, ids: seq<string>): (r: seq<string>)
    ensures forall id :: id in r ==> id in ids && Alive(sessions, disabled, now, id)
    ensures |r| <= |ids|
  {
    if ids == [] then []
    else
      var before, last := Live(sessions, disabled, now, ids[..|ids| - 1]), ids[|ids| - 1];
      if Alive(sessions, disabled, now, last) && !HasMailbox(sessions, before, sessions[last].mailbox) then before + [last]
      else before
  }

  method Resolve(sessions: map<string, Session>, disabled: set<string>, now: int, ids: seq<string>) returns (out: seq<string>)
    ensures out == Live(sessions, disabled, now, ids)
  {
    out := [];
    for i := 0 to |ids|
      invariant out == Live(sessions, disabled, now, ids[..i])
    {
      assert ids[..i + 1][..i] == ids[..i];
      var id := ids[i];
      if Alive(sessions, disabled, now, id) && !HasMailbox(sessions, out, sessions[id].mailbox) {
        out := out + [id];
      }
    }
    assert ids[..|ids|] == ids;
  }

  function LiveAccounts(w: World, disabled: set<string>, now: int): seq<string> {
    Live(w.sessions, disabled, now, ReadIds(w.cookies))
  }

  // ---- the operations -------------------------------------------------------------------------

  predicate Stale(s: Session, now: int) {
    s.expires - now < TTL_MS - REFRESH_AFTER_MS
  }

  function Refreshed(sessions: map<string, Session>, ids: seq<string>, now: int): map<string, Session> {
    map id | id in sessions ::
      if id in ids && Stale(sessions[id], now) then sessions[id].(expires := now + TTL_MS) else sessions[id]
  }

  /** Loading the accounts drops dead ids from the cookie and prolongs the rest. */
  function Loaded(w: World, disabled: set<string>, now: int): World {
    var ids := ReadIds(w.cookies);
    var kept := Live(w.sessions, disabled, now, ids);
    var stale := exists id :: id in kept && Stale(w.sessions[id], now);
    World(Refreshed(w.sessions, kept, now), if stale || kept != ids then w.cookies.(accounts := kept) else w.cookies)
  }

  function Without(ids: seq<string>, gone: set<string>): (r: seq<string>)
    ensures forall id :: id in r <==> id in ids && id !in gone
  {
    if ids == [] then []
    else Without(ids[..|ids| - 1], gone) + (if ids[|ids| - 1] in gone then [] else [ids[|ids| - 1]])
  }

  /** The sessions of `mailbox` among `ids`, live or not. */
  function OfMailbox(sessions: map<string, Session>, ids: seq<string>, mailbox: string): set<string> {
    set id | id in ids && id in sessions && sessions[id].mailbox == mailbox
  }

  /** A new session, replacing the browser's earlier ones of the mailbox; `ids` are those the request named. */
  function Created(w: World, ids: seq<string>, mailbox: string, id: string, now: int): World {
    var replaced := OfMailbox(w.sessions, ids, mailbox);
    World((w.sessions - replaced)[id := Session(mailbox, now + TTL_MS)], Cookies(Without(ids, replaced) + [id], Some(id)))
  }

  /** Whether a sign-in is turned away because the browser holds too many accounts. */
  predicate TooMany(w: World, mailbox: string, disabled: set<string>, now: int) {
    var live := LiveAccounts(w, disabled, now);
    |live| >= MAX_ACCOUNTS && !HasMailbox(w.sessions, live, mailbox)
  }

  /** A sign-in with the right password; a refusal may or may not carry the cookies set before it. */
  function SignedIn(w: World, mailbox: string, id: string, disabled: set<string>, now: int, sent: bool): World {
    var loaded := Loaded(w, disabled, now);
    if TooMany(w, mailbox, disabled, now) then (if sent then loaded else World(loaded.sessions, w.cookies))
    else Created(loaded, ReadIds(w.cookies), mailbox, id, now)
  }

  function FirstOf(sessions: map<string, Session>, ids: seq<string>, mailbox: string): Option<string> {
    if ids == [] then None
    else if ids[0] in sessions && sessions[ids[0]].mailbox == mailbox then Some(ids[0])
    else FirstOf(sessions, ids[1..], mailbox)
  }

  function Switched(w: World, mailbox: string, disabled: set<string>, now: int): World {
    var loaded := Loaded(w, disabled, now);
    var hit := FirstOf(w.sessions, LiveAccounts(w, disabled, now), mailbox);
    if hit.None? then loaded else loaded.(cookies := loaded.cookies.(active := hit))
  }

  datatype Which = All | Mailbox(id: string) | Active

  function Doomed(w: World, which: Which, disabled: set<string>, now: int): set<string> {
    match which
    case All => set id | id in ReadIds(w.cookies)
    case Mailbox(m) => OfMailbox(w.sessions, LiveAccounts(w, disabled, now), m)
    case Active => if w.cookies.active.Some? then {w.cookies.active.value} else {}
  }

  function NextActive(rest: seq<string>, active: Option<string>): Option<string> {
    if active.Some? && active.value in rest then active else if rest != [] then Some(rest[0]) else None
  }

  function SignedOut(w: World, which: Which, disabled: set<string>, now: int): World {
    var doomed := Doomed(w, which, disabled, now);
    var rest := Without(LiveAccounts(w, disabled, now), doomed);
    World(w.sessions - doomed, Cookies(rest, NextActive(rest, w.cookies.active)))
  }

  class Browser {
    var sessions: map<string, Session>
    var cookies: Cookies

    ghost function Now(): World
      reads this
    {
      World(sessions, cookies)
    }

    constructor (rows: map<string, Session>)
      ensures Now() == World(rows, Cookies([], None))
    {
      sessions, cookies := rows, Cookies([], None);
    }

    /** `request` holds the cookies the request came with; changes go to the ones the browser has afterwards. */
    method LoadAccounts(request: Cookies, disabled: set<string>, now: int) returns (accounts: seq<string>)
      requires request == cookies
      modifies this
      ensures Now() == Loaded(old(Now()), disabled, now) && accounts == LiveAccounts(old(Now()), disabled, now)
    {
      var ids := ReadIds(request);
      accounts := Resolve(sessions, disabled, now, ids);
      var stale := exists id :: id in accounts && Stale(sessions[id], now);
      var before := sessions;
      if stale {
        sessions := Refreshed(sessions, accounts, now);
      }
      assert !stale ==> Refreshed(before, accounts, now) == before;
      if stale || accounts != ids {
        cookies := cookies.(accounts := accounts);
      }
    }

    method CreateSession(request: Cookies, mailbox: string, id: string, now: int)
      modifies this
      ensures Now() == Created(old(Now()), ReadIds(request), mailbox, id, now)
    {
      var ids := ReadIds(request);
      var replaced := OfMailbox(sessions, ids, mailbox);
      sessions := (sessions - replaced)[id := Session(mailbox, now + TTL_MS)];
      cookies := Cookies(Without(ids, replaced) + [id], Some(id));
    }

    method Login(mailbox: string, id: string, disabled: set<string>, now: int, sent: bool) returns (ok: bool)
      modifies this
      ensures Now() == SignedIn(old(Now()), mailbox, id, disabled, now, sent)
      ensures ok <==> !TooMany(old(Now()), mailbox, disabled, now)
    {
      var request := cookies;
      ghost var start := Now();
      var accounts := LoadAccounts(request, disabled, now);
      RefreshKeepsMailboxes(start.sessions, accounts, now);
      if |accounts| >= MAX_ACCOUNTS && !HasMailbox(sessions, accounts, mailbox) {
        if !sent {
          cookies := request;
        }
        return false;
      }
      CreateSession(request, mailbox, id, now);
      return true;
    }

    method SwitchSession(mailbox: string, disabled: set<string>, now: int) returns (hit: Option<string>)
      modifies this
      ensures Now() == Switched(old(Now()), mailbox, disabled, now)
      ensures hit == FirstOf(old(sessions), LiveAccounts(old(Now()), disabled, now), mailbox)
    {
      var before := sessions;
      var accounts := LoadAccounts(cookies, disabled, now);
      hit := FirstOf(before, accounts, mailbox);
      if hit.Some? {
        cookies := cookies.(active := hit);
      }
    }

    method DestroySession(which: Which, disabled: set<string>, now: int) returns (next: Option<string>)
      modifies this
      ensures Now() == SignedOut(old(Now()), which, disabled, now) && next == cookies.active
    {
      var signedIn := Resolve(sessions, disabled, now, ReadIds(cookies));
      var active := cookies.active;
      var doomed: set<string> :=
        match which
        case All => set id | id in ReadIds(cookies)
        case Mailbox(m) => OfMailbox(sessions, signedIn, m)
        case Active => if active.Some? then {active.value} else {};
      sessions := sessions - doomed;
      var rest := Without(signedIn, doomed);
      next := if active.Some? && active.value in rest then active else if rest != [] then Some(rest[0]) else None;
      cookies := Cookies(rest, next);
    }
  }

  lemma RefreshKeepsMailboxes(sessions: map<string, Session>, ids: seq<string>, now: int)
    ensures Refreshed(sessions, ids, now).Keys == sessions.Keys
    ensures forall id :: id in sessions ==> Refreshed(sessions, ids, now)[id].mailbox == sessions[id].mailbox
    ensures forall accounts, mailbox ::
      HasMailbox(Refreshed(sessions, ids, now), accounts, mailbox) <==> HasMailbox(sessions, accounts, mailbox)
  {
    var after := Refreshed(sessions, ids, now);
    forall accounts, mailbox
      ensures HasMailbox(after, accounts, mailbox) <==> HasMailbox(sessions, accounts, mailbox)
    {
      if id :| id in accounts && id in sessions && sessions[id].mailbox == mailbox {
        assert id in after && after[id].mailbox == mailbox;
      }
    }
  }
}
