/** What the automatic rules come to: who is banned after an evaluation, for how long, and when the table stays as it was. */
module BanRules {
  import opened Text
  import opened Addresses
  import opened Cidr
  import opened AuthEvents
  import opened Bans

  // ---- counting attempts --------------------------------------------------------------------

  /** The recorded attempts of the selected kinds after `since`, by their places in the history. */
  ghost function Places(history: seq<Timed>, sel: Selector, since: int): set<nat> {
    set i: nat | i < |history| && Selects(sel, history[i].key) && history[i].at > since
  }

  lemma {:induction false} AttemptsAreCounted(history: seq<Timed>, sel: Selector, since: int)
    ensures AttemptsAfter(history, sel, since) == |Places(history, sel, since)|
  {
    if history != [] {
      var n := |history| - 1;
      AttemptsAreCounted(history[..n], sel, since);
      hide Places, Selects;
      PlacesMore(history, sel, since);
    }
  }

  lemma PlacesMore(history: seq<Timed>, sel: Selector, since: int)
    requires history != []
    ensures var n := |history| - 1;
      |Places(history, sel, since)|
      == |Places(history[..n], sel, since)| + if Selects(sel, history[n].key) && history[n].at > since then 1 else 0
  {
    hide Selects;
    var n := |history| - 1;
    var all, before := Places(history, sel, since), Places(history[..n], sel, since);
    forall i
      ensures i in before <==> i in all && i != n
    {
      assert 0 <= i < n ==> history[..n][i] == history[i];
    }
    assert before == all - {n};
  }

  /**
   * The failures counted for an address are the recorded attempts under its text that did not succeed and were not merely
   * turned away by a ban; those for no account are the ones of them with the reason "unknown_user".
   */
  lemma FailuresAreCounted(history: seq<Timed>, ip: string, since: int)
    ensures AttemptsAfter(history, Failed(ip), since)
         == |set i: nat | i < |history| && history[i].key.ip == Some(ip) && !history[i].key.success
                          && history[i].key.reason != Some("banned") && history[i].at > since|
    ensures AttemptsAfter(history, UnknownUser(ip), since)
         == |set i: nat | i < |history| && history[i].key.ip == Some(ip) && !history[i].key.success
                          && history[i].key.reason == Some("unknown_user") && history[i].at > since|
  {
    AttemptsAreCounted(history, Failed(ip), since);
    AttemptsAreCounted(history, UnknownUser(ip), since);
    assert Places(history, Failed(ip), since)
        == set i: nat | i < |history| && history[i].key.ip == Some(ip) && !history[i].key.success
                        && history[i].key.reason != Some("banned") && history[i].at > since;
    assert Places(history, UnknownUser(ip), since)
        == set i: nat | i < |history| && history[i].key.ip == Some(ip) && !history[i].key.success
                        && history[i].key.reason == Some("unknown_user") && history[i].at > since;
  }

  lemma {:induction false} EarlierHoldsMore(history: seq<Timed>, sel: Selector, since: int, earlier: int)
    requires earlier <= since
    ensures AttemptsAfter(history, sel, since) <= AttemptsAfter(history, sel, earlier)
  {
    hide Selects;
    if history != [] {
      EarlierHoldsMore(history[..|history| - 1], sel, since, earlier);
    }
  }

  // ---- a ban bans ---------------------------------------------------------------------------

  lemma WiderCovers(a: Network, b: Network, ip: Ip)
    requires ValidNetwork(a) && ValidNetwork(b) && ContainsNetwork(a, b) && Covers(b, ip)
    ensures Covers(a, ip)
  {
    var more := b.prefix - a.prefix;
    ShiftTwice(ip.bits, HostBits(b), more);
    ShiftTwice(b.address, HostBits(b), more);
  }

  lemma LongerThanNothing(durationMs: nat, previous: nat)
    requires durationMs > 0
    ensures durationMs * Escalation(previous) > 0
  {
    EscalationNeverFalls(0, previous);
  }

  lemma AutoBannedIsBanned(c: Config, bans: seq<Ban>, n: Network, now: int, ip: Ip)
    requires ValidBans(bans) && ValidNetwork(n) && c.durationMs > 0 && Covers(n, ip)
    ensures ValidBans(AutoBanned(c, bans, n, now)) && IsBanned(AutoBanned(c, bans, n, now), ip, now)
  {
    var after := AutoBanned(c, bans, n, now);
    hide Covers, ContainsNetwork, Escalation;
    if AlreadyCovered(bans, n, now) {
      var i :| 0 <= i < |bans| && IsActive(bans[i], now) && ContainsNetwork(bans[i].network, n);
      WiderCovers(bans[i].network, n, ip);
    } else {
      LongerThanNothing(c.durationMs, PreviousBans(bans, n, now));
      assert after[|bans|].network == n && IsActive(after[|bans|], now);
    }
  }

  // ---- the rules ----------------------------------------------------------------------------

  /** The evaluation looks at this address: it is on, the text reads as the address, and that is not allowlisted. */
  ghost predicate LookedAt(c: Config, inet: Reader, allow: seq<Network>, text: string, ip: Ip)
    requires AllValid(allow)
  {
    c.enabled && text != "" && text != "unknown" && inet(PlainIp(text)) == Some(ip) && !Listed(allow, ip)
  }

  /** Failures for too many accounts, or too many of them, since a moment. */
  ghost predicate FailsTooMuch(c: Config, history: seq<Timed>, plain: string, since: int, now: int) {
    || AttemptsAfter(history, Failed(plain), since) >= c.failures
    || |TriedNames(history, plain, since) - SignedInNames(history, plain, now - 86_400_000)| >= c.distinctAccounts
  }

  /** The address signed in during the last week. */
  ghost predicate SignedInFrom(history: seq<Timed>, plain: string, now: int) {
    exists t :: t in history && t.key.ip == Some(plain) && t.key.success && t.at > now - 604_800_000
  }

  /** Some address of the network did. */
  ghost predicate SignedInWithin(inet: Reader, history: seq<Timed>, n: Network, now: int)
    requires ValidNetwork(n)
  {
    exists t :: t in history && InNetwork(inet, t.key, n) && t.key.success && t.at > now - 604_800_000
  }

  /** The table after an evaluation. */
  ghost function After(c: Config, inet: Reader, rows: seq<Row>, allow: seq<Network>, bans: seq<Ban>, text: string, now: int): (r: seq<Ban>)
    requires AllValid(allow) && ValidBans(bans)
    ensures ValidBans(r)
  {
    Step(c, inet, bans, Evaluate(rows, allow, text), now)
  }

  /** What the first two rules read reaches its threshold. */
  predicate FastRule(c: Config, rows: seq<Row>, plain: string, now: int) {
    || |FailedNames(rows, plain, WindowSince(c, now), now - SUCCESS_GRACE_MS)| >= c.distinctAccounts
    || SumAfter(rows, Failed(plain), WindowSince(c, now)) >= c.failures
  }

  lemma FastRuleBans(c: Config, inet: Reader, rows: seq<Row>, allow: seq<Network>, bans: seq<Ban>, text: string, ip: Ip, now: int)
    requires AllValid(allow) && ValidBans(bans) && LookedAt(c, inet, allow, text, ip) && c.durationMs > 0
    requires FastRule(c, rows, PlainIp(text), now)
    ensures IsBanned(After(c, inet, rows, allow, bans, text, now), ip, now)
  {
    hide SumAfter, FailedNames, PlainIp, Surrounding, AutoBanned, IsBanned;
    if !IsBanned(bans, ip, now) {
      SingleCoversOnly(ip, ip);
      AutoBannedIsBanned(c, bans, Single(ip), now, ip);
    }
  }

  /** Failures in the window reach a threshold: the figures read from the rows do. */
  lemma FastRuleIsMet(c: Config, rows: seq<Row>, groups: seq<Group>, history: seq<Timed>, plain: string, since: int, now: int)
    requires StandsFor(rows, groups) && Accounts(groups, history)
    requires since >= now - c.windowMinutes * 60_000 && since >= now - c.slowWindowHours * 3_600_000
    requires FailsTooMuch(c, history, plain, since, now)
    ensures FastRule(c, rows, plain, now)
  {
    hide AttemptsAfter, SumAfter, FailedNames, TriedNames, SignedInNames, SucceededFrom, StandsFor, Accounts;
    FiguresMeanAttempts(c, rows, groups, history, plain, now);
    EarlierHoldsMore(history, Failed(plain), since, WindowSince(c, now));
    EarlierTriesMore(history, plain, since, WindowSince(c, now), now - 86_400_000);
  }

  lemma EarlierTriesMore(history: seq<Timed>, plain: string, since: int, earlier: int, grace: int)
    requires earlier <= since
    ensures |TriedNames(history, plain, since) - SignedInNames(history, plain, grace)|
         <= |TriedNames(history, plain, earlier) - SignedInNames(history, plain, grace)|
  {
    assert TriedNames(history, plain, since) <= TriedNames(history, plain, earlier);
    var names := SignedInNames(history, plain, grace);
    SmallerSet(TriedNames(history, plain, since) - names, TriedNames(history, plain, earlier) - names);
  }

  /**
   * Enough failed sign-ins within the window, or failures for enough accounts that did not sign in from there within a day,
   * and the address is banned after the evaluation.
   */
  lemma GuessingIsBanned(c: Config, inet: Reader, rows: seq<Row>, groups: seq<Group>, history: seq<Timed>, allow: seq<Network>,
                         bans: seq<Ban>, text: string, ip: Ip, since: int, now: int)
    requires StandsFor(rows, groups) && Accounts(groups, history)
    requires AllValid(allow) && ValidBans(bans) && LookedAt(c, inet, allow, text, ip) && c.durationMs > 0
    requires since >= now - c.windowMinutes * 60_000 && since >= now - c.slowWindowHours * 3_600_000
    requires FailsTooMuch(c, history, PlainIp(text), since, now)
    ensures IsBanned(After(c, inet, rows, allow, bans, text, now), ip, now)
  {
    hide StandsFor, Accounts, FailsTooMuch, FastRule, IsBanned;
    FastRuleIsMet(c, rows, groups, history, PlainIp(text), since, now);
    FastRuleBans(c, inet, rows, allow, bans, text, ip, now);
  }

  /** The figures of the slow rules are those of the history. */
  lemma SlowFigures(c: Config, inet: Reader, rows: seq<Row>, groups: seq<Group>, history: seq<Timed>, plain: string, ip: Ip, now: int)
    requires StandsFor(rows, groups) && Accounts(groups, history)
    ensures SucceededFrom(rows, plain, now - TRUSTED_SUCCESS_MS) <==> SignedInFrom(history, plain, now)
    ensures TrustedNetwork(inet, rows, Surrounding(ip), now - TRUSTED_SUCCESS_MS) <==> SignedInWithin(inet, history, Surrounding(ip), now)
    ensures UnknownSources(inet, rows, Surrounding(ip), SlowSince(c, now)) == UnknownTexts(inet, history, Surrounding(ip), SlowSince(c, now))
    ensures AttemptsAfter(history, UnknownUser(plain), SlowSince(c, now))
         <= SumAfter(rows, UnknownUser(plain), SlowSince(c, now))
         <= AttemptsAfter(history, UnknownUser(plain), SlowSince(c, now) - 600_000)
  {
    FiguresMeanAttempts(c, rows, groups, history, plain, now);
    NetworkFiguresAreExact(inet, rows, groups, history, Surrounding(ip), now - TRUSTED_SUCCESS_MS);
    NetworkFiguresAreExact(inet, rows, groups, history, Surrounding(ip), SlowSince(c, now));
  }

  /** The figures of the network rule are reached. */
  ghost predicate NetworkRule(c: Config, inet: Reader, rows: seq<Row>, allow: seq<Network>, ip: Ip, now: int)
    requires AllValid(allow)
  {
    && c.networkAddresses > 0 && !TouchesAllowlist(allow, Surrounding(ip))
    && !TrustedNetwork(inet, rows, Surrounding(ip), now - TRUSTED_SUCCESS_MS)
    && |UnknownSources(inet, rows, Surrounding(ip), SlowSince(c, now))| >= c.networkAddresses
  }

  lemma NetworkRuleBans(c: Config, inet: Reader, rows: seq<Row>, allow: seq<Network>, bans: seq<Ban>, text: string, ip: Ip, now: int, other: Ip)
    requires AllValid(allow) && ValidBans(bans) && LookedAt(c, inet, allow, text, ip) && c.durationMs > 0
    requires !SucceededFrom(rows, PlainIp(text), now - TRUSTED_SUCCESS_MS) && NetworkRule(c, inet, rows, allow, ip, now)
    requires Covers(Surrounding(ip), other)
    ensures other == ip ==> IsBanned(After(c, inet, rows, allow, bans, text, now), other, now)
    ensures !FastRule(c, rows, PlainIp(text), now) && !IsBanned(bans, ip, now) ==>
      IsBanned(After(c, inet, rows, allow, bans, text, now), other, now)
  {
    if FastRule(c, rows, PlainIp(text), now) {
      FastRuleBans(c, inet, rows, allow, bans, text, ip, now);
    } else if !IsBanned(bans, ip, now) {
      hide SumAfter, FailedNames, PlainIp, Surrounding, AutoBanned, IsBanned, UnknownSources, TrustedNetwork, TouchesAllowlist, SucceededFrom;
      AutoBannedIsBanned(c, bans, Surrounding(ip), now, other);
    }
  }

  /**
   * Enough addresses of one network tried accounts that do not exist, within the slow window, no allowlisted address lies in
   * it and neither it nor the address signed in this week: the address is banned, and with it, unless it was banned before
   * or failed enough for a ban of its own, every address of the network.
   */
  lemma FarmIsBanned(c: Config, inet: Reader, rows: seq<Row>, groups: seq<Group>, history: seq<Timed>, allow: seq<Network>,
                     bans: seq<Ban>, text: string, ip: Ip, since: int, window: int, now: int, other: Ip)
    requires StandsFor(rows, groups) && Accounts(groups, history)
    requires AllValid(allow) && ValidBans(bans) && LookedAt(c, inet, allow, text, ip) && c.durationMs > 0
    requires since >= now - c.slowWindowHours * 3_600_000 && c.networkAddresses > 0
    requires !SignedInFrom(history, PlainIp(text), now) && !SignedInWithin(inet, history, Surrounding(ip), now)
    requires forall a :: Covers(Surrounding(ip), a) ==> !Listed(allow, a)
    requires |UnknownTexts(inet, history, Surrounding(ip), since)| >= c.networkAddresses
    requires Covers(Surrounding(ip), other)
    requires window <= now - c.windowMinutes * 60_000 || window <= now - c.slowWindowHours * 3_600_000
    ensures other == ip || (!IsBanned(bans, ip, now) && FailsLittle(c, history, PlainIp(text), window, now)) ==>
      IsBanned(After(c, inet, rows, allow, bans, text, now), other, now)
  {
    var plain, n := PlainIp(text), Surrounding(ip);
    hide FastRule, PlainIp, StandsFor, Accounts, UnknownTexts, UnknownSources, TrustedNetwork, IsBanned, Covers, Surrounding,
         FailsLittle, AttemptsAfter, SumAfter, SignedInFrom, SignedInWithin, SucceededFrom, TouchesAllowlist, Listed;
    SlowFigures(c, inet, rows, groups, history, plain, ip, now);
    EarlierHoldsMoreTexts(inet, history, n, since, SlowSince(c, now));
    TouchesIffSharesAddress(allow, n);
    if FailsLittle(c, history, plain, window, now) {
      FastRuleIsNotMet(c, rows, groups, history, plain, window, now);
    }
    NetworkRuleBans(c, inet, rows, allow, bans, text, ip, now, other);
  }

  /** The failures since ten minutes before a moment stay below both thresholds. */
  ghost predicate FailsLittle(c: Config, history: seq<Timed>, plain: string, since: int, now: int) {
    && AttemptsAfter(history, Failed(plain), since - 600_000) < c.failures
    && |TriedNames(history, plain, since) - SignedInNames(history, plain, now - 86_400_000)| < c.distinctAccounts
  }

  lemma FastRuleIsNotMet(c: Config, rows: seq<Row>, groups: seq<Group>, history: seq<Timed>, plain: string, since: int, now: int)
    requires StandsFor(rows, groups) && Accounts(groups, history) && FailsLittle(c, history, plain, since, now)
    requires since <= now - c.windowMinutes * 60_000 || since <= now - c.slowWindowHours * 3_600_000
    ensures !FastRule(c, rows, plain, now)
  {
    hide AttemptsAfter, SumAfter, FailedNames, TriedNames, SignedInNames, SucceededFrom, StandsFor, Accounts;
    FiguresMeanAttempts(c, rows, groups, history, plain, now);
    EarlierHoldsMore(history, Failed(plain), WindowSince(c, now) - 600_000, since - 600_000);
    EarlierTriesMore(history, plain, WindowSince(c, now), since, now - 86_400_000);
  }

  lemma SlowRulesBan(c: Config, inet: Reader, rows: seq<Row>, allow: seq<Network>, bans: seq<Ban>, text: string, ip: Ip, now: int)
    requires AllValid(allow) && ValidBans(bans) && LookedAt(c, inet, allow, text, ip) && c.durationMs > 0
    requires !SucceededFrom(rows, PlainIp(text), now - TRUSTED_SUCCESS_MS)
    requires c.unknownFailures > 0 && SumAfter(rows, UnknownUser(PlainIp(text)), SlowSince(c, now)) >= c.unknownFailures
    ensures IsBanned(After(c, inet, rows, allow, bans, text, now), ip, now)
  {
    SurroundingCovers(ip);
    if FastRule(c, rows, PlainIp(text), now) {
      FastRuleBans(c, inet, rows, allow, bans, text, ip, now);
    } else if NetworkRule(c, inet, rows, allow, ip, now) {
      NetworkRuleBans(c, inet, rows, allow, bans, text, ip, now, ip);
    } else if !IsBanned(bans, ip, now) {
      hide SumAfter, FailedNames, PlainIp, Surrounding, AutoBanned, IsBanned, UnknownSources, TrustedNetwork, TouchesAllowlist, SucceededFrom;
      SingleCoversOnly(ip, ip);
      AutoBannedIsBanned(c, bans, Single(ip), now, ip);
    }
  }

  /** Enough sign-ins to no account within the slow window, and none that succeeded this week: the address is banned. */
  lemma TryingNamesIsBanned(c: Config, inet: Reader, rows: seq<Row>, groups: seq<Group>, history: seq<Timed>, allow: seq<Network>,
                            bans: seq<Ban>, text: string, ip: Ip, since: int, now: int)
    requires StandsFor(rows, groups) && Accounts(groups, history)
    requires AllValid(allow) && ValidBans(bans) && LookedAt(c, inet, allow, text, ip) && c.durationMs > 0
    requires since >= now - c.slowWindowHours * 3_600_000 && !SignedInFrom(history, PlainIp(text), now)
    requires c.unknownFailures > 0 && AttemptsAfter(history, UnknownUser(PlainIp(text)), since) >= c.unknownFailures
    ensures IsBanned(After(c, inet, rows, allow, bans, text, now), ip, now)
  {
    SlowFigures(c, inet, rows, groups, history, PlainIp(text), ip, now);
    EarlierHoldsMore(history, UnknownUser(PlainIp(text)), since, SlowSince(c, now));
    hide StandsFor, Accounts, IsBanned, SignedInFrom, LookedAt, SumAfter, AttemptsAfter;
    SlowRulesBan(c, inet, rows, allow, bans, text, ip, now);
  }

  // ---- who is left alone --------------------------------------------------------------------

  /** No slow rule applies: the address or its network signed in, an allowlisted address is near, or too little was tried. */
  ghost predicate SlowRulesSpare(c: Config, inet: Reader, history: seq<Timed>, allow: seq<Network>, plain: string, ip: Ip, since: int, now: int)
    requires AllValid(allow)
  {
    || SignedInFrom(history, plain, now)
    || (&& (|| c.networkAddresses == 0 || (exists a :: Listed(allow, a) && Covers(Surrounding(ip), a))
            || SignedInWithin(inet, history, Surrounding(ip), now)
            || |UnknownTexts(inet, history, Surrounding(ip), since)| < c.networkAddresses)
        && (c.unknownFailures == 0 || AttemptsAfter(history, UnknownUser(plain), since - 600_000) < c.unknownFailures))
  }

  lemma SlowRulesAreNotMet(c: Config, inet: Reader, rows: seq<Row>, groups: seq<Group>, history: seq<Timed>, allow: seq<Network>,
                           plain: string, ip: Ip, since: int, now: int)
    requires StandsFor(rows, groups) && Accounts(groups, history) && AllValid(allow)
    requires since <= now - c.slowWindowHours * 3_600_000 && SlowRulesSpare(c, inet, history, allow, plain, ip, since, now)
    ensures SucceededFrom(rows, plain, now - TRUSTED_SUCCESS_MS)
      || (!NetworkRule(c, inet, rows, allow, ip, now)
          && (c.unknownFailures == 0 || SumAfter(rows, UnknownUser(plain), SlowSince(c, now)) < c.unknownFailures))
  {
    hide AttemptsAfter, SumAfter, UnknownSources, UnknownTexts, SucceededFrom, SignedInFrom, SignedInWithin, TrustedNetwork,
         TouchesAllowlist, StandsFor, Accounts, Surrounding, Covers, Listed;
    SlowFigures(c, inet, rows, groups, history, plain, ip, now);
    TouchesIffSharesAddress(allow, Surrounding(ip));
    EarlierHoldsMore(history, UnknownUser(plain), SlowSince(c, now) - 600_000, since - 600_000);
    EarlierHoldsMoreTexts(inet, history, Surrounding(ip), SlowSince(c, now), since);
  }

  lemma EarlierHoldsMoreTexts(inet: Reader, history: seq<Timed>, n: Network, since: int, earlier: int)
    requires ValidNetwork(n) && earlier <= since
    ensures |UnknownTexts(inet, history, n, since)| <= |UnknownTexts(inet, history, n, earlier)|
  {
    hide InNetwork;
    SmallerSet(UnknownTexts(inet, history, n, since), UnknownTexts(inet, history, n, earlier));
  }

  lemma NoRuleNoBan(c: Config, inet: Reader, rows: seq<Row>, allow: seq<Network>, bans: seq<Ban>, text: string, ip: Ip, now: int)
    requires AllValid(allow) && ValidBans(bans) && inet(PlainIp(text)) == Some(ip) && !FastRule(c, rows, PlainIp(text), now)
    requires SucceededFrom(rows, PlainIp(text), now - TRUSTED_SUCCESS_MS)
      || (!NetworkRule(c, inet, rows, allow, ip, now)
          && (c.unknownFailures == 0 || SumAfter(rows, UnknownUser(PlainIp(text)), SlowSince(c, now)) < c.unknownFailures))
    ensures After(c, inet, rows, allow, bans, text, now) == bans
  {
    hide SumAfter, FailedNames, PlainIp, Surrounding, AutoBanned, IsBanned, UnknownSources, TrustedNetwork, TouchesAllowlist, SucceededFrom;
  }

  /** While the failures, ten minutes added to their windows, stay below every threshold that applies, nobody is banned. */
  lemma QuietIsSpared(c: Config, inet: Reader, rows: seq<Row>, groups: seq<Group>, history: seq<Timed>, allow: seq<Network>,
                      bans: seq<Ban>, text: string, ip: Ip, window: int, slow: int, now: int)
    requires StandsFor(rows, groups) && Accounts(groups, history)
    requires AllValid(allow) && ValidBans(bans) && inet(PlainIp(text)) == Some(ip)
    requires window <= now - c.windowMinutes * 60_000 || window <= now - c.slowWindowHours * 3_600_000
    requires slow <= now - c.slowWindowHours * 3_600_000
    requires FailsLittle(c, history, PlainIp(text), window, now)
    requires SlowRulesSpare(c, inet, history, allow, PlainIp(text), ip, slow, now)
    ensures After(c, inet, rows, allow, bans, text, now) == bans
  {
    hide StandsFor, Accounts, FailsLittle, SlowRulesSpare, FastRule, NetworkRule, After;
    FastRuleIsNotMet(c, rows, groups, history, PlainIp(text), window, now);
    SlowRulesAreNotMet(c, inet, rows, groups, history, allow, PlainIp(text), ip, slow, now);
    NoRuleNoBan(c, inet, rows, allow, bans, text, ip, now);
  }

  /** Nor is anybody when evaluation is off, the text reads as no address, or the address is allowlisted or banned already. */
  lemma NotLookedAtIsSpared(c: Config, inet: Reader, rows: seq<Row>, allow: seq<Network>, bans: seq<Ban>, text: string, now: int)
    requires AllValid(allow) && ValidBans(bans)
    requires !c.enabled || text == "" || text == "unknown" || inet(PlainIp(text)).None?
      || Listed(allow, inet(PlainIp(text)).value) || IsBanned(bans, inet(PlainIp(text)).value, now)
    ensures After(c, inet, rows, allow, bans, text, now) == bans
  {
    hide SumAfter, FailedNames, PlainIp, Surrounding, AutoBanned, UnknownSources, TrustedNetwork, TouchesAllowlist, SucceededFrom;
  }

  // ---- the ban that is added ----------------------------------------------------------------

  /** The automatic bans of exactly this network in the last ninety days. */
  ghost function Earlier(bans: seq<Ban>, n: Network, now: int): set<nat> {
    set i: nat | i < |bans| && bans[i].network == n && bans[i].auto && bans[i].createdAt > now - 7_776_000_000
  }

  lemma {:induction false} PreviousAreCounted(bans: seq<Ban>, n: Network, now: int)
    ensures PreviousBans(bans, n, now) == |Earlier(bans, n, now)|
  {
    if bans != [] {
      var k := |bans| - 1;
      var before, last := bans[..k], bans[k];
      PreviousAreCounted(before, n, now);
      assert forall i: nat :: i < k ==> before[i] == bans[i];
      assert Earlier(bans, n, now)
          == Earlier(before, n, now) + if last.network == n && last.auto && last.createdAt > now - 7_776_000_000 then {k} else {};
    }
  }

  /**
   * An evaluation that changes the table adds one ban, from now on, of the address or of the network around it, and no
   * active ban contained that before. The first one lasts the configured time; if there were automatic bans of exactly this
   * network in the last ninety days, one makes it seven times as long and more make it thirty times.
   */
  lemma AddedBan(c: Config, inet: Reader, rows: seq<Row>, allow: seq<Network>, bans: seq<Ban>, text: string, now: int)
    requires AllValid(allow) && ValidBans(bans) && After(c, inet, rows, allow, bans, text, now) != bans
    ensures inet(PlainIp(text)).Some?
    ensures var after, ip := After(c, inet, rows, allow, bans, text, now), inet(PlainIp(text)).value;
      && |after| == |bans| + 1 && after[..|bans|] == bans
      && var b := after[|bans|];
         var times := |Earlier(bans, b.network, now)|;
         && b.auto && b.createdAt == now && b.liftedAt.None? && (b.network == Single(ip) || b.network == Surrounding(ip))
         && b.expiresAt == Some(now + c.durationMs * (if times == 0 then 1 else if times == 1 then 7 else 30))
         && (forall later :: IsActive(b, later) <==> later < b.expiresAt.value)
         && forall i :: 0 <= i < |bans| && IsActive(bans[i], now) ==> !ContainsNetwork(bans[i].network, b.network)
  {
    hide SumAfter, FailedNames, PlainIp, Surrounding, UnknownSources, TrustedNetwork, TouchesAllowlist, SucceededFrom,
         ContainsNetwork, PreviousBans, IsBanned, Covers;
    var n := Verdict(c, inet, rows, allow, bans, text, now).value;
    PreviousAreCounted(bans, n, now);
    EscalationNeverFalls(|Earlier(bans, n, now)|, |Earlier(bans, n, now)|);
  }

  // ---- bans by hand -------------------------------------------------------------------------

  lemma CanonicalCovers(n: Network, ip: Ip)
    requires ValidNetwork(n)
    ensures Covers(Canonical(n), ip) <==> Covers(n, ip)
  {
    ShiftMasked(n.address, HostBits(n));
  }

  lemma {:induction false} MaskedFollowsShift(x: nat, y: nat, n: nat)
    requires Shift(x, n) == Shift(y, n)
    ensures Masked(x, n) == Masked(y, n)
  {
    if n > 0 {
      MaskedFollowsShift(x / 2, y / 2, n - 1);
    }
  }

  /** A ban by hand replaces an active ban of the network, whichever of its addresses either was written with. */
  lemma ManualBanReplaces(bans: seq<Ban>, n: Network, durationMs: Option<nat>, now: int, i: nat, m: Network, ip: Ip)
    requires ValidBans(bans) && ValidNetwork(n) && ValidNetwork(m)
    requires i < |bans| && IsActive(bans[i], now) && bans[i].network == Canonical(m)
    requires m.prefix == n.prefix && Covers(n, ip) && Covers(m, ip)
    ensures ManuallyBanned(bans, n, durationMs, now)[i] == bans[i].(liftedAt := Some(now))
  {
    MaskedFollowsShift(n.address, m.address, HostBits(n));
    assert Canonical(m) == Canonical(n);
  }

  /** A ban by hand bans every address of the network until it ends, or for good, and lifts no ban but those of the network. */
  lemma ManualBanBans(bans: seq<Ban>, n: Network, durationMs: Option<nat>, now: int, later: int, ip: Ip)
    requires ValidBans(bans) && ValidNetwork(n) && Covers(n, ip)
    ensures var after := ManuallyBanned(bans, n, durationMs, now);
      && ValidBans(after) && |after| == |bans| + 1
      && (durationMs.None? || later < now + durationMs.value ==> IsBanned(after, ip, later))
      && (IsActive(after[|bans|], later) <==> durationMs.None? || later < now + durationMs.value)
      && (forall i :: 0 <= i < |bans| ==> after[i] == bans[i] || (bans[i].network == Canonical(n) && after[i].liftedAt == Some(now)))
      && after[|bans|].network == Canonical(n) && !after[|bans|].auto && after[|bans|].createdAt == now
  {
    var after := ManuallyBanned(bans, n, durationMs, now);
    CanonicalCovers(n, ip);
    hide Covers, Canonical;
    assert Covers(after[|bans|].network, ip);
  }

  /** Lifting a ban ends it for good, and no other. */
  lemma LiftingEndsOne(bans: seq<Ban>, id: nat, now: int, later: int)
    requires id < |bans|
    ensures var after := LiftedOne(bans, id, now);
      |after| == |bans| && !IsActive(after[id], later) && forall i :: 0 <= i < |bans| && i != id ==> after[i] == bans[i]
  {
  }
}
