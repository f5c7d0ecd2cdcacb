/** Automatic and manual IP bans: when an address is banned, for how long, and what lifting a ban leaves. */
module Bans {
  import opened Text
  import opened Addresses
  import opened Cidr
  import opened AuthEvents

  const REPEAT_LOOKBACK_MS := 90 * DAY_MS
  const SUCCESS_GRACE_MS := 24 * HOUR_MS
  const TRUSTED_SUCCESS_MS := 7 * DAY_MS

  datatype Config = Config(
    enabled: bool,
    windowMinutes: nat,
    distinctAccounts: nat,
    failures: nat,
    durationMs: nat,
    slowWindowHours: nat,
    unknownFailures: nat,
    networkAddresses: nat)

  /** A row of ip_bans; its id is its position. */
  datatype Ban = Ban(network: Network, auto: bool, createdAt: int, expiresAt: Option<int>, liftedAt: Option<int>)

  predicate IsActive(b: Ban, now: int) {
    b.liftedAt.None? && (b.expiresAt.None? || b.expiresAt.value > now)
  }

  predicate ValidBans(bans: seq<Ban>) {
    forall i :: 0 <= i < |bans| ==> ValidNetwork(bans[i].network)
  }

  predicate IsBanned(bans: seq<Ban>, ip: Ip, now: int)
    requires ValidBans(bans)
  {
    exists i :: 0 <= i < |bans| && IsActive(bans[i], now) && Covers(bans[i].network, ip)
  }

  // ---- the figures the rules look at --------------------------------------------------------

  function Later(a: int, b: int): int {
    if a > b then a else b
  }

  /** Failures older than this count in neither the window nor the slow window. */
  function SlowSince(c: Config, now: int): int {
    now - c.slowWindowHours * HOUR_MS
  }

  function WindowSince(c: Config, now: int): int {
    Later(now - c.windowMinutes * MINUTE_MS, SlowSince(c, now))
  }

  function SucceededNames(rows: seq<Row>, ip: string, since: int): set<string> {
    set r | r in rows && r.key.ip == Some(ip) && r.key.success && r.key.username.Some? && r.lastAt > since :: r.key.username.value
  }

  /** The accounts tried without success, leaving out those that signed in from the address within the grace period. */
  function FailedNames(rows: seq<Row>, ip: string, since: int, graceSince: int): set<string> {
    (set r | r in rows && IsFailure(r.key, ip) && r.key.username.Some? && r.lastAt > since :: r.key.username.value)
    - SucceededNames(rows, ip, graceSince)
  }

  predicate SucceededFrom(rows: seq<Row>, ip: string, since: int) {
    exists r :: r in rows && r.key.ip == Some(ip) && r.key.success && r.lastAt > since
  }

  /** Reads a text as an address; texts that are none have no value. */
  type Reader = string -> Option<Ip>

  predicate InNetwork(inet: Reader, key: Key, n: Network)
    requires ValidNetwork(n)
  {
    key.ip.Some? && inet(key.ip.value).Some? && Covers(n, inet(key.ip.value).value)
  }

  /** The texts of the network's addresses under which sign-ins to no account failed. */
  function UnknownSources(inet: Reader, rows: seq<Row>, n: Network, since: int): set<string>
    requires ValidNetwork(n)
  {
    set r | r in rows && InNetwork(inet, r.key, n) && Selects(UnknownUser(r.key.ip.value), r.key) && r.lastAt > since :: r.key.ip.value
  }

  predicate TrustedNetwork(inet: Reader, rows: seq<Row>, n: Network, since: int)
    requires ValidNetwork(n)
  {
    exists r :: r in rows && InNetwork(inet, r.key, n) && r.key.success && r.lastAt > since
  }

  // ---- the verdict --------------------------------------------------------------------------

  /** The network to ban after a failed sign-in from the address `plain` stands for, if any. */
  function VerdictOn(c: Config, inet: Reader, rows: seq<Row>, allow: seq<Network>, bans: seq<Ban>, plain: string, ip: Ip, now: int): (n: Option<Network>)
    requires AllValid(allow) && ValidBans(bans)
    ensures n.Some? ==> ValidNetwork(n.value)
  {
    var slow := SlowSince(c, now);
    var network := Surrounding(ip);
    if !c.enabled || Listed(allow, ip) || IsBanned(bans, ip, now) then None
    else if |FailedNames(rows, plain, WindowSince(c, now), now - SUCCESS_GRACE_MS)| >= c.distinctAccounts then Some(Single(ip))
    else if SumAfter(rows, Failed(plain), WindowSince(c, now)) >= c.failures then Some(Single(ip))
    else if SucceededFrom(rows, plain, now - TRUSTED_SUCCESS_MS) then None
    else if c.networkAddresses > 0 && !TouchesAllowlist(allow, network)
            && !TrustedNetwork(inet, rows, network, now - TRUSTED_SUCCESS_MS)
            && |UnknownSources(inet, rows, network, slow)| >= c.networkAddresses then Some(network)
    else if c.unknownFailures > 0 && SumAfter(rows, UnknownUser(plain), slow) >= c.unknownFailures then Some(Single(ip))
    else None
  }

  /** The network to ban after a failed sign-in reported from `text`; texts that are no address are passed over. */
  function Verdict(c: Config, inet: Reader, rows: seq<Row>, allow: seq<Network>, bans: seq<Ban>, text: string, now: int): (n: Option<Network>)
    requires AllValid(allow) && ValidBans(bans)
    ensures n.Some? ==> ValidNetwork(n.value)
  {
    var plain := PlainIp(text);
    if text == "" || text == "unknown" || inet(plain).None? then None
    else VerdictOn(c, inet, rows, allow, bans, plain, inet(plain).value, now)
  }

  /** No automatic ban covers an address allowlisted at that moment, and every one covers the address that failed. */
  lemma VerdictSparesAllowlist(c: Config, inet: Reader, rows: seq<Row>, allow: seq<Network>, bans: seq<Ban>, text: string, now: int, other: Ip)
    requires AllValid(allow) && ValidBans(bans)
    requires Verdict(c, inet, rows, allow, bans, text, now).Some?
    ensures inet(PlainIp(text)).Some? && Covers(Verdict(c, inet, rows, allow, bans, text, now).value, inet(PlainIp(text)).value)
    ensures Covers(Verdict(c, inet, rows, allow, bans, text, now).value, other) ==> !Listed(allow, other)
  {
    hide FailedNames, SumAfter, SucceededFrom, TrustedNetwork, UnknownSources, Surrounding, TouchesAllowlist, Covers, PlainIp;
    var ip := inet(PlainIp(text)).value;
    SurroundingCovers(ip);
    SingleCoversOnly(ip, other);
    SingleCoversOnly(ip, ip);
    TouchesIffSharesAddress(allow, Surrounding(ip));
  }

  // ---- what the figures mean for the attempts made --------------------------------------------

  ghost function TriedNames(history: seq<Timed>, ip: string, since: int): set<string> {
    set t | t in history && IsFailure(t.key, ip) && t.key.username.Some? && t.at > since :: t.key.username.value
  }

  ghost function SignedInNames(history: seq<Timed>, ip: string, since: int): set<string> {
    set t | t in history && t.key.ip == Some(ip) && t.key.success && t.key.username.Some? && t.at > since :: t.key.username.value
  }

  ghost function UnknownTexts(inet: Reader, history: seq<Timed>, n: Network, since: int): set<string>
    requires ValidNetwork(n)
  {
    set t | t in history && InNetwork(inet, t.key, n) && Selects(UnknownUser(t.key.ip.value), t.key) && t.at > since :: t.key.ip.value
  }

  /**
   * Every figure the rules read means the attempts stored under the text it asks for: the failures in the window and the
   * sign-ins to no account in the slow window, with at most ten minutes more; the accounts that failed in the window and did
   * not sign in during the grace period, exactly; and whether the address is trusted, exactly.
   */
  lemma FiguresMeanAttempts(c: Config, rows: seq<Row>, groups: seq<Group>, history: seq<Timed>, ip: string, now: int)
    requires StandsFor(rows, groups) && Accounts(groups, history)
    ensures AttemptsAfter(history, Failed(ip), WindowSince(c, now))
         <= SumAfter(rows, Failed(ip), WindowSince(c, now))
         <= AttemptsAfter(history, Failed(ip), WindowSince(c, now) - FOLD_FAILURE_MS)
    ensures AttemptsAfter(history, UnknownUser(ip), SlowSince(c, now))
         <= SumAfter(rows, UnknownUser(ip), SlowSince(c, now))
         <= AttemptsAfter(history, UnknownUser(ip), SlowSince(c, now) - FOLD_FAILURE_MS)
    ensures FailedNames(rows, ip, WindowSince(c, now), now - SUCCESS_GRACE_MS)
         == TriedNames(history, ip, WindowSince(c, now)) - SignedInNames(history, ip, now - SUCCESS_GRACE_MS)
    ensures SucceededFrom(rows, ip, now - TRUSTED_SUCCESS_MS)
       <==> exists t :: t in history && t.key.ip == Some(ip) && t.key.success && t.at > now - TRUSTED_SUCCESS_MS
  {
    hide StandsFor, Accounts, SumAfter, AttemptsAfter, FailedNames, TriedNames, SignedInNames, SucceededFrom;
    FoldedSumBounds(rows, groups, history, Failed(ip), WindowSince(c, now));
    FoldedSumBounds(rows, groups, history, UnknownUser(ip), SlowSince(c, now));
    FailedNamesAreThose(c, rows, groups, history, ip, now);
    TrustIsExact(rows, groups, history, ip, now - TRUSTED_SUCCESS_MS);
  }

  lemma FailedNamesAreThose(c: Config, rows: seq<Row>, groups: seq<Group>, history: seq<Timed>, ip: string, now: int)
    requires StandsFor(rows, groups) && Accounts(groups, history)
    ensures FailedNames(rows, ip, WindowSince(c, now), now - SUCCESS_GRACE_MS)
         == TriedNames(history, ip, WindowSince(c, now)) - SignedInNames(history, ip, now - SUCCESS_GRACE_MS)
  {
    FailedNamesAreTried(rows, groups, history, ip, WindowSince(c, now));
    SucceededNamesSignedIn(rows, groups, history, ip, now - SUCCESS_GRACE_MS);
  }

  /** The figures of a network are exact: its texts with failed sign-ins to no account, and whether it is trusted. */
  lemma NetworkFiguresAreExact(inet: Reader, rows: seq<Row>, groups: seq<Group>, history: seq<Timed>, n: Network, since: int)
    requires StandsFor(rows, groups) && Accounts(groups, history) && ValidNetwork(n)
    ensures UnknownSources(inet, rows, n, since) == UnknownTexts(inet, history, n, since)
    ensures TrustedNetwork(inet, rows, n, since)
       <==> exists t :: t in history && InNetwork(inet, t.key, n) && t.key.success && t.at > since
  {
    NetworkTextsAreExact(inet, rows, groups, history, n, since);
    hide InNetwork, StandsFor, Accounts;
    if r :| r in rows && InNetwork(inet, r.key, n) && r.key.success && r.lastAt > since {
      TouchedIffAttempted(rows, groups, history, r.key, since);
      var t :| t in history && t.key == r.key && t.at > since;
    }
    if t :| t in history && InNetwork(inet, t.key, n) && t.key.success && t.at > since {
      TouchedIffAttempted(rows, groups, history, t.key, since);
      var r :| r in rows && r.key == t.key && r.lastAt > since;
    }
  }

  lemma NetworkTextsAreExact(inet: Reader, rows: seq<Row>, groups: seq<Group>, history: seq<Timed>, n: Network, since: int)
    requires StandsFor(rows, groups) && Accounts(groups, history) && ValidNetwork(n)
    ensures UnknownSources(inet, rows, n, since) == UnknownTexts(inet, history, n, since)
  {
    hide StandsFor, Accounts, Covers, Selects;
    forall text | text in UnknownSources(inet, rows, n, since)
      ensures text in UnknownTexts(inet, history, n, since)
    {
      var r :| r in rows && InNetwork(inet, r.key, n) && Selects(UnknownUser(r.key.ip.value), r.key) && r.lastAt > since && r.key.ip.value == text;
      TouchedIffAttempted(rows, groups, history, r.key, since);
      var t :| t in history && t.key == r.key && t.at > since;
    }
    forall text | text in UnknownTexts(inet, history, n, since)
      ensures text in UnknownSources(inet, rows, n, since)
    {
      var t :| t in history && InNetwork(inet, t.key, n) && Selects(UnknownUser(t.key.ip.value), t.key) && t.at > since && t.key.ip.value == text;
      TouchedIffAttempted(rows, groups, history, t.key, since);
      var r :| r in rows && r.key == t.key && r.lastAt > since;
    }
  }

  lemma FailedNamesAreTried(rows: seq<Row>, groups: seq<Group>, history: seq<Timed>, ip: string, since: int)
    requires StandsFor(rows, groups) && Accounts(groups, history)
    ensures (set r | r in rows && IsFailure(r.key, ip) && r.key.username.Some? && r.lastAt > since :: r.key.username.value)
         == TriedNames(history, ip, since)
  {
    var names := set r | r in rows && IsFailure(r.key, ip) && r.key.username.Some? && r.lastAt > since :: r.key.username.value;
    forall name | name in names
      ensures name in TriedNames(history, ip, since)
    {
      var r :| r in rows && IsFailure(r.key, ip) && r.key.username.Some? && r.lastAt > since && r.key.username.value == name;
      TouchedIffAttempted(rows, groups, history, r.key, since);
      var t :| t in history && t.key == r.key && t.at > since;
    }
    forall name | name in TriedNames(history, ip, since)
      ensures name in names
    {
      var t :| t in history && IsFailure(t.key, ip) && t.key.username.Some? && t.at > since && t.key.username.value == name;
      TouchedIffAttempted(rows, groups, history, t.key, since);
      var r :| r in rows && r.key == t.key && r.lastAt > since;
    }
  }

  lemma SucceededNamesSignedIn(rows: seq<Row>, groups: seq<Group>, history: seq<Timed>, ip: string, since: int)
    requires StandsFor(rows, groups) && Accounts(groups, history)
    ensures SucceededNames(rows, ip, since) == SignedInNames(history, ip, since)
  {
    forall name | name in SucceededNames(rows, ip, since)
      ensures name in SignedInNames(history, ip, since)
    {
      var r :| r in rows && r.key.ip == Some(ip) && r.key.success && r.key.username.Some? && r.lastAt > since && r.key.username.value == name;
      TouchedIffAttempted(rows, groups, history, r.key, since);
      var t :| t in history && t.key == r.key && t.at > since;
    }
    forall name | name in SignedInNames(history, ip, since)
      ensures name in SucceededNames(rows, ip, since)
    {
      var t :| t in history && t.key.ip == Some(ip) && t.key.success && t.key.username.Some? && t.at > since && t.key.username.value == name;
      TouchedIffAttempted(rows, groups, history, t.key, since);
      var r :| r in rows && r.key == t.key && r.lastAt > since;
    }
  }

  lemma TrustIsExact(rows: seq<Row>, groups: seq<Group>, history: seq<Timed>, ip: string, since: int)
    requires StandsFor(rows, groups) && Accounts(groups, history)
    ensures SucceededFrom(rows, ip, since)
       <==> exists t :: t in history && t.key.ip == Some(ip) && t.key.success && t.at > since
  {
    if r :| r in rows && r.key.ip == Some(ip) && r.key.success && r.lastAt > since {
      TouchedIffAttempted(rows, groups, history, r.key, since);
    }
    if t :| t in history && t.key.ip == Some(ip) && t.key.success && t.at > since {
      TouchedIffAttempted(rows, groups, history, t.key, since);
      var r :| r in rows && r.key == t.key && r.lastAt > since;
    }
  }

  // ---- the table ------------------------------------------------------------------------------

  predicate AlreadyCovered(bans: seq<Ban>, n: Network, now: int)
    requires ValidBans(bans) && ValidNetwork(n)
  {
    exists i :: 0 <= i < |bans| && IsActive(bans[i], now) && ContainsNetwork(bans[i].network, n)
  }

  /** How often the exact network was banned automatically within the look-back. */
  function PreviousBans(bans: seq<Ban>, n: Network, now: int): nat {
    if bans == [] then 0
    else
      var last := bans[|bans| - 1];
      PreviousBans(bans[..|bans| - 1], n, now)
      + if last.network == n && last.auto && last.createdAt > now - REPEAT_LOOKBACK_MS then 1 else 0
  }

  const ESCALATION: seq<nat> := [1, 7, 30]

  function Escalation(previous: nat): nat {
    ESCALATION[if previous < |ESCALATION| - 1 then previous else |ESCALATION| - 1]
  }

  /** The second ban lasts seven times the first, later ones thirty times; repeating never shortens a ban. */
  lemma EscalationNeverFalls(a: nat, b: nat)
    requires a <= b
    ensures Escalation(0) == 1 && Escalation(1) == 7 && (a >= 2 ==> Escalation(a) == 30)
    ensures Escalation(a) <= Escalation(b)
  {
  }

  function AutoBanned(c: Config, bans: seq<Ban>, n: Network, now: int): seq<Ban>
    requires ValidBans(bans) && ValidNetwork(n)
  {
    if AlreadyCovered(bans, n, now) then bans
    else bans + [Ban(n, true, now, Some(now + c.durationMs * Escalation(PreviousBans(bans, n, now))), None)]
  }

  /** The address with its host bits cleared, as Postgres stores a network. */
  function Canonical(n: Network): (r: Network)
    requires ValidNetwork(n)
    ensures ValidNetwork(r)
  {
    n.(address := Masked(n.address, HostBits(n)))
  }

  function LiftedWhere(bans: seq<Ban>, doomed: set<nat>, now: int): (r: seq<Ban>)
    ensures |r| == |bans|
    ensures forall i :: 0 <= i < |bans| ==> r[i] == if i in doomed then bans[i].(liftedAt := Some(now)) else bans[i]
  {
    seq(|bans|, i requires 0 <= i < |bans| => if i in doomed then bans[i].(liftedAt := Some(now)) else bans[i])
  }

  function SameNetwork(bans: seq<Ban>, n: Network, now: int): set<nat> {
    set i | 0 <= i < |bans| && bans[i].network == n && IsActive(bans[i], now)
  }

  function Overlapping(bans: seq<Ban>, n: Network, now: int): set<nat>
    requires ValidBans(bans) && ValidNetwork(n)
  {
    set i | 0 <= i < |bans| && IsActive(bans[i], now)
         && (ContainsNetwork(bans[i].network, n) || ContainsNetwork(n, bans[i].network))
  }

  function ManuallyBanned(bans: seq<Ban>, n: Network, durationMs: Option<nat>, now: int): seq<Ban>
    requires ValidNetwork(n)
  {
    LiftedWhere(bans, SameNetwork(bans, Canonical(n), now), now)
    + [Ban(Canonical(n), false, now, if durationMs.None? then None else Some(now + durationMs.value), None)]
  }

  function LiftedOne(bans: seq<Ban>, id: nat, now: int): seq<Ban> {
    if id < |bans| && bans[id].liftedAt.None? then bans[id := bans[id].(liftedAt := Some(now))] else bans
  }

  function LiftedFor(bans: seq<Ban>, n: Network, now: int): seq<Ban>
    requires ValidBans(bans) && ValidNetwork(n)
  {
    LiftedWhere(bans, Overlapping(bans, n, now), now)
  }

  class BanTable {
    var bans: seq<Ban>

    constructor ()
      ensures bans == []
    {
      bans := [];
    }

    /** Bans a network for the escalated time unless an active ban covers it already. */
    method AutoBan(c: Config, n: Network, now: int) returns (banned: bool)
      requires ValidBans(bans) && ValidNetwork(n)
      modifies this
      ensures ValidBans(bans) && bans == AutoBanned(c, old(bans), n, now)
      ensures banned <==> !AlreadyCovered(old(bans), n, now)
    {
      if AlreadyCovered(bans, n, now) {
        return false;
      }
      var previous := PreviousBans(bans, n, now);
      bans := bans + [Ban(n, true, now, Some(now + c.durationMs * Escalation(previous)), None)];
      return true;
    }

    /** Run after every failed sign-in. */
    method EvaluateAutoBan(c: Config, inet: Reader, rows: seq<Row>, allow: seq<Network>, text: string, now: int) returns (banned: bool)
      requires ValidBans(bans) && AllValid(allow)
      modifies this
      ensures ValidBans(bans)
      ensures var verdict := Verdict(c, inet, rows, allow, old(bans), text, now);
        bans == if verdict.Some? then AutoBanned(c, old(bans), verdict.value, now) else old(bans)
      ensures banned ==> Verdict(c, inet, rows, allow, old(bans), text, now).Some?
    {
      hide AutoBanned, AlreadyCovered, PlainIp;
      banned := false;
      if !c.enabled || text == "" || text == "unknown" {
        return;
      }
      var plain := PlainIp(text);
      var address := inet(plain);
      if address.None? {
        return;
      }
      var ip := address.value;
      if Listed(allow, ip) || IsBanned(bans, ip, now) {
        return;
      }
      var window, slow := WindowSince(c, now), SlowSince(c, now);
      if |FailedNames(rows, plain, window, now - SUCCESS_GRACE_MS)| >= c.distinctAccounts {
        banned := AutoBan(c, Single(ip), now);
        return;
      }
      if SumAfter(rows, Failed(plain), window) >= c.failures {
        banned := AutoBan(c, Single(ip), now);
        return;
      }
      if SucceededFrom(rows, plain, now - TRUSTED_SUCCESS_MS) {
        return;
      }
      var network := Surrounding(ip);
      if c.networkAddresses > 0 && !TouchesAllowlist(allow, network) {
        var sources := UnknownSources(inet, rows, network, slow);
        if !TrustedNetwork(inet, rows, network, now - TRUSTED_SUCCESS_MS) && |sources| >= c.networkAddresses {
          banned := AutoBan(c, network, now);
          return;
        }
      }
      if c.unknownFailures > 0 && SumAfter(rows, UnknownUser(plain), slow) >= c.unknownFailures {
        banned := AutoBan(c, Single(ip), now);
      }
    }

    /** Bans a network by hand, in place of an active ban of the same network. */
    method CreateBan(n: Network, durationMs: Option<nat>, now: int)
      requires ValidBans(bans) && ValidNetwork(n)
      modifies this
      ensures ValidBans(bans) && bans == ManuallyBanned(old(bans), n, durationMs, now)
    {
      var network := Canonical(n);
      bans := LiftedWhere(bans, SameNetwork(bans, network, now), now);
      bans := bans + [Ban(network, false, now, if durationMs.None? then None else Some(now + durationMs.value), None)];
    }

    method LiftBan(id: nat, now: int)
      requires ValidBans(bans)
      modifies this
      ensures ValidBans(bans) && bans == LiftedOne(old(bans), id, now)
    {
      if id < |bans| && bans[id].liftedAt.None? {
        bans := bans[id := bans[id].(liftedAt := Some(now))];
      }
    }

    /** Lifts every active ban that overlaps the address or network; returns how many. */
    method LiftBansFor(n: Network, now: int) returns (count: nat)
      requires ValidBans(bans) && ValidNetwork(n)
      modifies this
      ensures ValidBans(bans) && bans == LiftedFor(old(bans), n, now)
      ensures count == |Overlapping(old(bans), n, now)|
    {
      var doomed := Overlapping(bans, n, now);
      bans := LiftedWhere(bans, doomed, now);
      count := |doomed|;
    }
  }

  // ---- every run ---------------------------------------------------------------------------------

  /** After lifting the bans for a network, none of its addresses is banned. */
  lemma LiftingFreesEveryAddress(bans: seq<Ban>, n: Network, now: int, later: int, ip: Ip)
    requires ValidBans(bans) && ValidNetwork(n) && now <= later && Covers(n, ip)
    ensures ValidBans(LiftedFor(bans, n, now)) && !IsBanned(LiftedFor(bans, n, now), ip, later)
  {
    var after := LiftedFor(bans, n, now);
    forall i | 0 <= i < |after| && IsActive(after[i], later)
      ensures !Covers(after[i].network, ip)
    {
      if Covers(after[i].network, ip) {
        assert ShareAddress(after[i].network, n);
        NestedOrDisjoint(after[i].network, n);
      }
    }
  }

  /** At most one active ban per exact network. */
  ghost predicate OneActivePerNetwork(bans: seq<Ban>, now: int) {
    forall i, j :: 0 <= i < j < |bans| && IsActive(bans[i], now) && IsActive(bans[j], now) ==> bans[i].network != bans[j].network
  }

  datatype Op =
    | Evaluate(rows: seq<Row>, allow: seq<Network>, text: string)
    | Create(network: Network, durationMs: Option<nat>)
    | Lift(id: nat)
    | LiftFor(network: Network)

  ghost predicate ValidOp(op: Op) {
    match op
    case Evaluate(_, allow, _) => AllValid(allow)
    case Create(n, _) => ValidNetwork(n)
    case Lift(_) => true
    case LiftFor(n) => ValidNetwork(n)
  }

  ghost function Step(c: Config, inet: Reader, bans: seq<Ban>, op: Op, now: int): (r: seq<Ban>)
    requires ValidBans(bans) && ValidOp(op)
    ensures ValidBans(r)
  {
    match op
    case Evaluate(rows, allow, text) =>
      var verdict := Verdict(c, inet, rows, allow, bans, text, now);
      if verdict.Some? then AutoBanned(c, bans, verdict.value, now) else bans
    case Create(n, durationMs) => ManuallyBanned(bans, n, durationMs, now)
    case Lift(id) => LiftedOne(bans, id, now)
    case LiftFor(n) => LiftedFor(bans, n, now)
  }

  lemma ContainsItself(n: Network)
    requires ValidNetwork(n)
    ensures ContainsNetwork(n, n)
  {
  }

  lemma AutoBanKeepsOnePerNetwork(c: Config, bans: seq<Ban>, n: Network, before: int, now: int)
    requires ValidBans(bans) && ValidNetwork(n) && before <= now && OneActivePerNetwork(bans, before)
    ensures OneActivePerNetwork(AutoBanned(c, bans, n, now), now)
  {
    ContainsItself(n);
    hide ContainsNetwork, PreviousBans, Escalation;
  }

  lemma StepKeepsOnePerNetwork(c: Config, inet: Reader, bans: seq<Ban>, op: Op, before: int, now: int)
    requires ValidBans(bans) && ValidOp(op) && before <= now && OneActivePerNetwork(bans, before)
    ensures OneActivePerNetwork(Step(c, inet, bans, op, now), now)
  {
    hide Verdict, Canonical, ContainsNetwork, PreviousBans, Escalation;
    match op
    case Evaluate(rows, allow, text) =>
      var verdict := Verdict(c, inet, rows, allow, bans, text, now);
      if verdict.Some? {
        AutoBanKeepsOnePerNetwork(c, bans, verdict.value, before, now);
      }
    case Create(n, durationMs) =>
    case Lift(id) =>
    case LiftFor(n) =>
  }

  ghost function Run(c: Config, inet: Reader, ops: seq<(Op, int)>): (bans: seq<Ban>)
    requires forall i :: 0 <= i < |ops| ==> ValidOp(ops[i].0)
    ensures ValidBans(bans)
  {
    if ops == [] then []
    else Step(c, inet, Run(c, inet, ops[..|ops| - 1]), ops[|ops| - 1].0, ops[|ops| - 1].1)
  }

  /** Over every run of evaluations, manual bans and lifts, with time passing, each network has at most one active ban. */
  lemma {:induction false} OneBanPerNetworkAlways(c: Config, inet: Reader, ops: seq<(Op, int)>, now: int)
    requires forall i :: 0 <= i < |ops| ==> ValidOp(ops[i].0) && ops[i].1 <= now
    requires forall i, j :: 0 <= i < j < |ops| ==> ops[i].1 <= ops[j].1
    ensures OneActivePerNetwork(Run(c, inet, ops), now)
  {
    if ops != [] {
      var earlier, op, at := ops[..|ops| - 1], ops[|ops| - 1].0, ops[|ops| - 1].1;
      OneBanPerNetworkAlways(c, inet, earlier, at);
      StepKeepsOnePerNetwork(c, inet, Run(c, inet, earlier), op, at, at);
    }
  }
}
