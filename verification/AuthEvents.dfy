/** Sign-in attempts folded into counted rows, and what the automatic bans read back from them. */
module AuthEvents {
  import opened Text
  import opened Addresses

  const MINUTE_MS := 60_000
  const HOUR_MS := 60 * MINUTE_MS
  const DAY_MS := 24 * HOUR_MS
  const FOLD_SUCCESS_MS := 60 * MINUTE_MS
  const FOLD_FAILURE_MS := 10 * MINUTE_MS

  /** A sign-in attempt as it is reported; the address is a text. */
  datatype Attempt = Attempt(source: string, username: Option<string>, ip: Option<string>, success: bool, reason: Option<string>)

  /** What repeats of an attempt have in common. */
  datatype Key = Key(source: string, username: Option<string>, ip: Option<string>, success: bool, reason: Option<string>)

  /** A row of auth_events; times are in milliseconds. */
  datatype Row = Row(createdAt: int, lastAt: int, key: Key, count: nat)

  /** The name as it is stored: trimmed, lower case, at most 254 characters, none when empty. */
  function StoredName(username: Option<string>): Option<string> {
    if username.None? then None else
    var name := Cut(Lower(Trim(username.value)), 254);
    if name == "" then None else Some(name)
  }

  /** The address as it is stored: the text as reported, at most 64 characters, none when unknown. */
  function StoredIp(ip: Option<string>): Option<string> {
    if ip.None? || ip.value == "" || ip.value == "unknown" then None else Some(Cut(ip.value, 64))
  }

  function KeyOf(a: Attempt): Key {
    Key(a.source, StoredName(a.username), StoredIp(a.ip), a.success, if a.success then None else a.reason)
  }

  /**
   * What is stored of an attempt: source and success as reported, the reason of a failure, the name trimmed, in lower case
   * and cut to 254 characters, the address text cut to 64; empty names and unknown addresses are not stored.
   */
  lemma KeyTells(a: Attempt)
    ensures var key := KeyOf(a);
      && key.source == a.source && key.success == a.success
      && (a.success ==> key.reason.None?) && (!a.success ==> key.reason == a.reason)
      && (a.username.None? || Trim(a.username.value) == "" ==> key.username.None?)
      && (a.username.Some? && Trim(a.username.value) != "" ==> key.username == Some(Cut(Lower(Trim(a.username.value)), 254)))
      && (a.ip.None? || a.ip == Some("") || a.ip == Some("unknown") ==> key.ip.None?)
      && (a.ip.Some? && a.ip != Some("") && a.ip != Some("unknown") ==> key.ip == Some(Cut(a.ip.value, 64)))
  {
  }

  function FoldWindow(key: Key): int {
    if key.success then FOLD_SUCCESS_MS else FOLD_FAILURE_MS
  }

  /** The newest row an attempt may be added to. */
  function FoldTarget(rows: seq<Row>, key: Key, now: int): (r: Option<nat>)
    ensures r.Some? ==> r.value < |rows| && rows[r.value].key == key && rows[r.value].createdAt > now - FoldWindow(key)
  {
    if rows == [] then None
    else
      var last := rows[|rows| - 1];
      if last.key == key && last.createdAt > now - FoldWindow(key) then Some(|rows| - 1)
      else FoldTarget(rows[..|rows| - 1], key, now)
  }

  function Written(rows: seq<Row>, key: Key, now: int): seq<Row> {
    match FoldTarget(rows, key, now)
    case None => rows + [Row(now, now, key, 1)]
    case Some(i) => rows[i := rows[i].(count := rows[i].count + 1, lastAt := now)]
  }

  // ---- what a row stands for --------------------------------------------------------------

  /** An attempt at its time. */
  datatype Timed = Timed(key: Key, at: int)

  /** The times of the attempts folded into one row. */
  datatype Group = Group(key: Key, times: seq<int>)

  ghost predicate Stands(r: Row, g: Group) {
    && g.times != [] && r.key == g.key && r.count == |g.times|
    && r.createdAt == g.times[0] && r.lastAt == g.times[|g.times| - 1]
    && (forall i, j :: 0 <= i < j < |g.times| ==> g.times[i] <= g.times[j])
    && r.lastAt - r.createdAt < FoldWindow(r.key)
  }

  ghost predicate StandsFor(rows: seq<Row>, groups: seq<Group>) {
    |rows| == |groups| && forall i :: 0 <= i < |rows| ==> Stands(rows[i], groups[i])
  }

  /** The groups after one more attempt, folded where the row is. */
  ghost function Grouped(groups: seq<Group>, at: Option<nat>, key: Key, now: int): seq<Group>
    requires at.Some? ==> at.value < |groups|
  {
    if at.None? then groups + [Group(key, [now])]
    else groups[at.value := Group(groups[at.value].key, groups[at.value].times + [now])]
  }

  class AuthLog {
    var rows: seq<Row>
    /** every attempt recorded, oldest first */
    ghost var history: seq<Timed>
    ghost var groups: seq<Group>

    ghost predicate Valid()
      reads this
    {
      StandsFor(rows, groups) && Accounts(groups, history)
    }

    constructor ()
      ensures Valid() && rows == [] && history == []
    {
      rows, history, groups := [], [], [];
    }

    /** Writes an attempt: it adds to the count of a recent row of its kind or becomes a row. */
    method WriteAuthEvent(a: Attempt, now: int)
      requires Valid() && forall i :: 0 <= i < |history| ==> history[i].at <= now
      modifies this
      ensures Valid() && rows == Written(old(rows), KeyOf(a), now)
      ensures history == old(history) + [Timed(KeyOf(a), now)]
    {
      var key := KeyOf(a);
      var existing := FoldTarget(rows, key, now);
      WritingStandsFor(rows, groups, history, key, now);
      if existing.Some? {
        var i := existing.value;
        rows := rows[i := rows[i].(count := rows[i].count + 1, lastAt := now)];
      } else {
        rows := rows + [Row(now, now, key, 1)];
      }
      groups := Grouped(groups, existing, key, now);
      history := history + [Timed(key, now)];
    }
  }

  /** What the ban rules ask for: everything, the failures stored under a text, or those of them naming no account. */
  datatype Selector = Everything | Failed(ip: string) | UnknownUser(ip: string)

  /** A failed sign-in that was not merely turned away by a ban. */
  predicate IsFailure(key: Key, ip: string) {
    key.ip == Some(ip) && !key.success && key.reason != Some("banned")
  }

  predicate Selects(sel: Selector, key: Key) {
    match sel
    case Everything => true
    case Failed(ip) => IsFailure(key, ip)
    case UnknownUser(ip) => IsFailure(key, ip) && key.reason == Some("unknown_user")
  }

  /** The longest time between the attempts folded into one row of the selection. */
  function SpanOf(sel: Selector): int {
    if sel.Everything? then FOLD_SUCCESS_MS else FOLD_FAILURE_MS
  }

  // ---- counting -----------------------------------------------------------------------------

  ghost function CountAfter(times: seq<int>, since: int): nat {
    if times == [] then 0
    else CountAfter(times[..|times| - 1], since) + if times[|times| - 1] > since then 1 else 0
  }

  /** How many recorded attempts of the selected kinds came after `since`. */
  ghost function AttemptsAfter(history: seq<Timed>, sel: Selector, since: int): nat {
    if history == [] then 0
    else
      var last := history[|history| - 1];
      AttemptsAfter(history[..|history| - 1], sel, since) + if Selects(sel, last.key) && last.at > since then 1 else 0
  }

  ghost function GroupsAfter(groups: seq<Group>, sel: Selector, since: int): nat {
    if groups == [] then 0
    else
      var last := groups[|groups| - 1];
      GroupsAfter(groups[..|groups| - 1], sel, since) + if Selects(sel, last.key) then CountAfter(last.times, since) else 0
  }

  /** The sum the ban rules read: the counts of the selected rows last touched after `since`. */
  function SumAfter(rows: seq<Row>, sel: Selector, since: int): nat {
    if rows == [] then 0
    else
      var last := rows[|rows| - 1];
      SumAfter(rows[..|rows| - 1], sel, since) + if Selects(sel, last.key) && last.lastAt > since then last.count else 0
  }

  /** The groups hold the attempts: as many of each kind after each moment, and none else. */
  ghost predicate Accounts(groups: seq<Group>, history: seq<Timed>) {
    && (forall sel, since {:trigger AttemptsAfter(history, sel, since)} ::
         GroupsAfter(groups, sel, since) == AttemptsAfter(history, sel, since))
    && (forall t :: t in history ==> exists g :: g in groups && g.key == t.key && t.at in g.times)
    && (forall g, at :: g in groups && at in g.times ==> Timed(g.key, at) in history)
  }

  lemma {:induction false} GroupsAfterUpdate(groups: seq<Group>, i: nat, g: Group, sel: Selector, since: int)
    requires i < |groups| && g.key == groups[i].key
    ensures Selects(sel, g.key) ==>
      GroupsAfter(groups[i := g], sel, since) + CountAfter(groups[i].times, since)
        == GroupsAfter(groups, sel, since) + CountAfter(g.times, since)
    ensures !Selects(sel, g.key) ==> GroupsAfter(groups[i := g], sel, since) == GroupsAfter(groups, sel, since)
  {
    var n := |groups| - 1;
    if i < n {
      GroupsAfterUpdate(groups[..n], i, g, sel, since);
      assert groups[i := g][..n] == groups[..n][i := g];
    } else {
      assert groups[i := g][..n] == groups[..n];
    }
  }

  lemma WritingCounts(groups: seq<Group>, history: seq<Timed>, at: Option<nat>, key: Key, now: int, sel: Selector, since: int)
    requires at.Some? ==> at.value < |groups| && groups[at.value].key == key
    requires GroupsAfter(groups, sel, since) == AttemptsAfter(history, sel, since)
    ensures GroupsAfter(Grouped(groups, at, key, now), sel, since)
         == AttemptsAfter(history + [Timed(key, now)], sel, since)
  {
    assert (history + [Timed(key, now)])[..|history|] == history;
    if at.Some? {
      var times := groups[at.value].times;
      assert (times + [now])[..|times|] == times;
      GroupsAfterUpdate(groups, at.value, Group(key, times + [now]), sel, since);
    } else {
      assert (groups + [Group(key, [now])])[..|groups|] == groups;
      assert [now][..0] == [];
      assert CountAfter([now], since) == if now > since then 1 else 0;
    }
  }

  lemma WritingAccounts(groups: seq<Group>, history: seq<Timed>, at: Option<nat>, key: Key, now: int)
    requires at.Some? ==> at.value < |groups| && groups[at.value].key == key
    requires Accounts(groups, history)
    ensures Accounts(Grouped(groups, at, key, now), history + [Timed(key, now)])
  {
    var next, more := Grouped(groups, at, key, now), history + [Timed(key, now)];
    forall sel, since
      ensures GroupsAfter(next, sel, since) == AttemptsAfter(more, sel, since)
    {
      assert GroupsAfter(groups, sel, since) == AttemptsAfter(history, sel, since);
      WritingCounts(groups, history, at, key, now, sel, since);
    }
    WritingKeepsEvery(groups, history, at, key, now);
  }

  lemma WritingKeepsEvery(groups: seq<Group>, history: seq<Timed>, at: Option<nat>, key: Key, now: int)
    requires at.Some? ==> at.value < |groups| && groups[at.value].key == key
    requires forall t :: t in history ==> exists g :: g in groups && g.key == t.key && t.at in g.times
    requires forall g, at :: g in groups && at in g.times ==> Timed(g.key, at) in history
    ensures var next, more := Grouped(groups, at, key, now), history + [Timed(key, now)];
      && (forall t :: t in more ==> exists g :: g in next && g.key == t.key && t.at in g.times)
      && (forall g, at :: g in next && at in g.times ==> Timed(g.key, at) in more)
  {
    var next, more := Grouped(groups, at, key, now), history + [Timed(key, now)];
    var n := if at.Some? then at.value else |groups|;
    assert next[n].key == key && now in next[n].times;
    forall t | t in more
      ensures exists g :: g in next && g.key == t.key && t.at in g.times
    {
      if t in history {
        var g :| g in groups && g.key == t.key && t.at in g.times;
        var i :| 0 <= i < |groups| && groups[i] == g;
        assert next[i].key == t.key && t.at in next[i].times;
      } else {
        assert next[n] in next;
      }
    }
    forall g, at' | g in next && at' in g.times
      ensures Timed(g.key, at') in more
    {
      var i :| 0 <= i < |next| && next[i] == g;
      if i < |groups| && at' in groups[i].times {
        assert groups[i] in groups;
        assert Timed(groups[i].key, at') in history;
      }
    }
  }

  lemma WritingStandsFor(rows: seq<Row>, groups: seq<Group>, history: seq<Timed>, key: Key, now: int)
    requires StandsFor(rows, groups) && Accounts(groups, history)
    requires forall i :: 0 <= i < |history| ==> history[i].at <= now
    ensures StandsFor(Written(rows, key, now), Grouped(groups, FoldTarget(rows, key, now), key, now))
    ensures Accounts(Grouped(groups, FoldTarget(rows, key, now), key, now), history + [Timed(key, now)])
  {
    var at := FoldTarget(rows, key, now);
    if at.Some? {
      var g := groups[at.value];
      assert Stands(rows[at.value], g);
      forall k | 0 <= k < |g.times|
        ensures g.times[k] <= now
      {
        assert g in groups && g.times[k] in g.times;
        assert Timed(g.key, g.times[k]) in history;
      }
    }
    WritingAccounts(groups, history, at, key, now);
  }

  // ---- what the ban rules read back -----------------------------------------------------------

  lemma {:induction false} CountAfterAll(times: seq<int>, since: int)
    requires forall i :: 0 <= i < |times| ==> times[i] > since
    ensures CountAfter(times, since) == |times|
  {
    if times != [] {
      CountAfterAll(times[..|times| - 1], since);
    }
  }

  lemma {:induction false} CountAfterBounds(times: seq<int>, since: int)
    ensures CountAfter(times, since) <= |times|
    ensures (forall i :: 0 <= i < |times| ==> times[i] <= since) ==> CountAfter(times, since) == 0
  {
    if times != [] {
      CountAfterBounds(times[..|times| - 1], since);
    }
  }

  lemma {:induction false} SumBracketsGroups(rows: seq<Row>, groups: seq<Group>, sel: Selector, since: int)
    requires StandsFor(rows, groups)
    ensures GroupsAfter(groups, sel, since) <= SumAfter(rows, sel, since) <= GroupsAfter(groups, sel, since - SpanOf(sel))
  {
    if rows != [] {
      var n := |rows| - 1;
      SumBracketsGroups(rows[..n], groups[..n], sel, since);
      assert Stands(rows[n], groups[n]);
      hide Stands, Selects, CountAfter, SpanOf;
      if Selects(sel, rows[n].key) {
        RowBracketsGroup(rows[n], groups[n], sel, since);
      }
    }
  }

  lemma RowBracketsGroup(r: Row, g: Group, sel: Selector, since: int)
    requires Stands(r, g) && Selects(sel, r.key)
    ensures r.key == g.key
    ensures CountAfter(g.times, since) <= (if r.lastAt > since then r.count else 0) <= CountAfter(g.times, since - SpanOf(sel))
  {
    hide CountAfter;
    CountAfterBounds(g.times, since);
    if r.lastAt > since {
      CountAfterAll(g.times, since - SpanOf(sel));
    }
  }

  /**
   * Folding neither loses attempts nor adds many: the sum read over a window is at least the attempts of that window and
   * at most those of the window begun one folding span earlier.
   */
  lemma FoldedSumBounds(rows: seq<Row>, groups: seq<Group>, history: seq<Timed>, sel: Selector, since: int)
    requires StandsFor(rows, groups) && Accounts(groups, history)
    ensures AttemptsAfter(history, sel, since) <= SumAfter(rows, sel, since) <= AttemptsAfter(history, sel, since - SpanOf(sel))
  {
    SumBracketsGroups(rows, groups, sel, since);
    assert GroupsAfter(groups, sel, since) == AttemptsAfter(history, sel, since);
    assert GroupsAfter(groups, sel, since - SpanOf(sel)) == AttemptsAfter(history, sel, since - SpanOf(sel));
  }

  /** Some attempt of a kind came after a moment exactly when some row of that kind was touched after it. */
  lemma TouchedIffAttempted(rows: seq<Row>, groups: seq<Group>, history: seq<Timed>, key: Key, since: int)
    requires StandsFor(rows, groups) && Accounts(groups, history)
    ensures (exists r :: r in rows && r.key == key && r.lastAt > since)
       <==> (exists t :: t in history && t.key == key && t.at > since)
  {
    if r :| r in rows && r.key == key && r.lastAt > since {
      var i :| 0 <= i < |rows| && rows[i] == r;
      assert Stands(rows[i], groups[i]);
      assert groups[i] in groups && r.lastAt in groups[i].times;
      assert Timed(key, r.lastAt) in history;
    }
    if t :| t in history && t.key == key && t.at > since {
      AttemptIsInARow(rows, groups, history, t);
    }
  }

  lemma AttemptIsInARow(rows: seq<Row>, groups: seq<Group>, history: seq<Timed>, t: Timed)
    requires StandsFor(rows, groups) && Accounts(groups, history) && t in history
    ensures exists r :: r in rows && r.key == t.key && r.lastAt >= t.at
  {
    var g :| g in groups && g.key == t.key && t.at in g.times;
    hide Accounts;
    var i :| 0 <= i < |groups| && groups[i] == g;
    assert Stands(rows[i], groups[i]);
    var j :| 0 <= j < |g.times| && g.times[j] == t.at;
    assert rows[i] in rows && rows[i].lastAt >= t.at;
  }

  lemma {:induction false} AllAttemptsAfter(history: seq<Timed>, sel: Selector, since: int)
    requires forall i :: 0 <= i < |history| ==> Selects(sel, history[i].key) && history[i].at > since
    ensures AttemptsAfter(history, sel, since) == |history|
  {
    if history != [] {
      AllAttemptsAfter(history[..|history| - 1], sel, since);
    }
  }

  /** The counts of all rows add up to the number of attempts recorded. */
  lemma CountsAddUp(rows: seq<Row>, groups: seq<Group>, history: seq<Timed>, sel: Selector, since: int)
    requires StandsFor(rows, groups) && Accounts(groups, history)
    requires forall i :: 0 <= i < |history| ==> Selects(sel, history[i].key) && history[i].at > since
    ensures SumAfter(rows, sel, since) == |history|
  {
    FoldedSumBounds(rows, groups, history, sel, since);
    AllAttemptsAfter(history, sel, since);
    AllAttemptsAfter(history, sel, since - SpanOf(sel));
  }

  // ---- attempts by the address they come from ---------------------------------------------------

  /** A failure from the address whose plain form is `plain`, however it was reported. */
  predicate FailureFrom(key: Key, plain: string) {
    key.ip.Some? && PlainIp(key.ip.value) == plain && IsFailure(key, key.ip.value)
  }

  /** How many recorded failures from the address came after `since`. */
  ghost function FailuresFrom(history: seq<Timed>, plain: string, since: int): nat {
    if history == [] then 0
    else
      var last := history[|history| - 1];
      FailuresFrom(history[..|history| - 1], plain, since) + if FailureFrom(last.key, plain) && last.at > since then 1 else 0
  }

  /** Every failure from the address was reported under its plain form. */
  ghost predicate AllPlain(history: seq<Timed>, plain: string) {
    forall i :: 0 <= i < |history| && FailureFrom(history[i].key, plain) ==> history[i].key.ip == Some(plain)
  }

  lemma {:induction false} PlainFailuresCount(history: seq<Timed>, plain: string, since: int)
    requires IsPlain(plain)
    ensures AttemptsAfter(history, Failed(plain), since) <= FailuresFrom(history, plain, since)
    ensures AllPlain(history, plain) ==> AttemptsAfter(history, Failed(plain), since) == FailuresFrom(history, plain, since)
    ensures !AllPlain(history, plain) && (forall i :: 0 <= i < |history| ==> history[i].at > since) ==>
      AttemptsAfter(history, Failed(plain), since) < FailuresFrom(history, plain, since)
  {
    hide PlainIp;
    if history != [] {
      PlainFailuresCount(history[..|history| - 1], plain, since);
    }
  }

  /** A moment before every attempt, and before the folding span ahead of it. */
  lemma {:induction false} LongAgo(history: seq<Timed>) returns (since: int)
    ensures forall i :: 0 <= i < |history| ==> history[i].at > since
  {
    if history == [] {
      since := 0;
    } else {
      since := LongAgo(history[..|history| - 1]);
      var at := history[|history| - 1].at;
      since := if at - 1 < since then at - 1 else since;
    }
  }

  lemma {:induction false} NoneIsLost(history: seq<Timed>, sel: Selector, since: int, earlier: int)
    requires earlier <= since && forall i :: 0 <= i < |history| ==> history[i].at > since
    ensures AttemptsAfter(history, sel, earlier) == AttemptsAfter(history, sel, since)
  {
    if history != [] {
      NoneIsLost(history[..|history| - 1], sel, since, earlier);
    }
  }

  ghost predicate FigureSuffices(rows: seq<Row>, history: seq<Timed>, plain: string, since: int) {
    FailuresFrom(history, plain, since) <= SumAfter(rows, Failed(plain), since)
  }

  lemma PlainFigureBounds(rows: seq<Row>, groups: seq<Group>, history: seq<Timed>, plain: string, since: int)
    requires StandsFor(rows, groups) && Accounts(groups, history) && IsPlain(plain)
    ensures SumAfter(rows, Failed(plain), since) <= FailuresFrom(history, plain, since - FOLD_FAILURE_MS)
    ensures AllPlain(history, plain) ==> FigureSuffices(rows, history, plain, since)
  {
    hide StandsFor, Accounts, IsPlain, AllPlain, SumAfter, AttemptsAfter, FailuresFrom;
    FoldedSumBounds(rows, groups, history, Failed(plain), since);
    PlainFailuresCount(history, plain, since);
    PlainFailuresCount(history, plain, since - FOLD_FAILURE_MS);
  }

  lemma MixedFigureFallsShort(rows: seq<Row>, groups: seq<Group>, history: seq<Timed>, plain: string) returns (since: int)
    requires StandsFor(rows, groups) && Accounts(groups, history) && IsPlain(plain) && !AllPlain(history, plain)
    ensures !FigureSuffices(rows, history, plain, since)
  {
    hide StandsFor, Accounts, IsPlain, AllPlain, SumAfter, AttemptsAfter, FailuresFrom;
    since := LongAgo(history);
    FoldedSumBounds(rows, groups, history, Failed(plain), since);
    NoneIsLost(history, Failed(plain), since, since - FOLD_FAILURE_MS);
    PlainFailuresCount(history, plain, since);
  }

  /**
   * The figure read for an address never exceeds its failures since one folding span earlier. It reaches its failures since
   * every moment if and only if all of them were reported under the plain form of the address.
   */
  lemma FigureReachesFailuresIff(rows: seq<Row>, groups: seq<Group>, history: seq<Timed>, plain: string)
    requires StandsFor(rows, groups) && Accounts(groups, history) && IsPlain(plain)
    ensures forall since :: SumAfter(rows, Failed(plain), since) <= FailuresFrom(history, plain, since - FOLD_FAILURE_MS)
    ensures (forall since :: FigureSuffices(rows, history, plain, since)) <==> AllPlain(history, plain)
  {
    hide *;
    forall since
      ensures SumAfter(rows, Failed(plain), since) <= FailuresFrom(history, plain, since - FOLD_FAILURE_MS)
      ensures AllPlain(history, plain) ==> FigureSuffices(rows, history, plain, since)
    {
      PlainFigureBounds(rows, groups, history, plain, since);
    }
    if !AllPlain(history, plain) {
      var since := MixedFigureFallsShort(rows, groups, history, plain);
    }
  }

  /** Failures reported behind the IPv4-mapped prefix only are read as none at all. */
  lemma MappedFailuresAreNotRead(rows: seq<Row>, groups: seq<Group>, history: seq<Timed>, dotted: string, since: int)
    requires StandsFor(rows, groups) && Accounts(groups, history) && DigitGroups(dotted, 4)
    requires forall i :: 0 <= i < |history| ==> IsFailure(history[i].key, MAPPED + dotted) && history[i].at > since
    ensures SumAfter(rows, Failed(dotted), since) == 0 && FailuresFrom(history, dotted, since) == |history|
  {
    MappedIsNotPlain(dotted);
    hide PlainIp, DigitGroups, StandsFor, Accounts;
    FoldedSumBounds(rows, groups, history, Failed(dotted), since);
    NoAttemptsUnder(history, dotted, since - FOLD_FAILURE_MS);
    AllFailuresFrom(history, dotted, since);
  }

  lemma {:induction false} NoAttemptsUnder(history: seq<Timed>, text: string, since: int)
    requires forall i :: 0 <= i < |history| ==> history[i].key.ip != Some(text)
    ensures AttemptsAfter(history, Failed(text), since) == 0
  {
    if history != [] {
      NoAttemptsUnder(history[..|history| - 1], text, since);
    }
  }

  lemma {:induction false} AllFailuresFrom(history: seq<Timed>, plain: string, since: int)
    requires forall i :: 0 <= i < |history| ==> FailureFrom(history[i].key, plain) && history[i].at > since
    ensures FailuresFrom(history, plain, since) == |history|
  {
    if history != [] {
      AllFailuresFrom(history[..|history| - 1], plain, since);
    }
  }
}
