/** What every run of the directory operations keeps, and what setting up the report addresses achieves. */
module DirectoryLaws {
  import opened Text
  import opened Directory

  datatype Op =
    | CreateDomain(name: string)
    | SwitchDomain(id: nat, on: bool)
    | DeleteDomain(id: nat)
    | SetCatchAll(id: nat, target: Option<string>)
    | CreateMailbox(id: nat, local: string, admin: bool, receives: bool)
    | UpdateMailbox(id: nat, update: MailboxUpdate)
    | DeleteMailbox(id: nat)
    | CreateAlias(id: nat, local: string, destination: string)
    | UpdateAlias(id: nat, target: Option<string>, activate: Option<bool>)
    | DeleteAlias(id: nat)
    | ApplyReports(listing: seq<nat>, reports: Target)

  /** What the request schemas and the listing query guarantee. */
  predicate Allowed(s: State, op: Op) {
    match op
    case CreateDomain(name) => PlainName(name)
    case CreateMailbox(_, local, _, _) => PlainName(local)
    case CreateAlias(_, local, _) => !Contains(local, '@')
    case ApplyReports(listing, t) => IsListing(s, listing) && (t.NewMailbox? ==> PlainName(t.local))
    case _ => true
  }

  function Step(s: State, op: Op): State
    requires Allowed(s, op)
  {
    match op
    case CreateDomain(name) => DomainCreated(s, name).0
    case SwitchDomain(id, on) => DomainSwitched(s, id, on).0
    case DeleteDomain(id) => DomainDeleted(s, id).0
    case SetCatchAll(id, target) => CatchAllSet(s, id, target).0
    case CreateMailbox(id, local, admin, receives) => MailboxCreated(s, id, local, admin, receives).0
    case UpdateMailbox(id, update) => MailboxUpdated(s, id, update).0
    case DeleteMailbox(id) => MailboxDeleted(s, id).0
    case CreateAlias(id, local, destination) => AliasCreated(s, id, local, destination).0
    case UpdateAlias(id, target, activate) => AliasUpdated(s, id, target, activate).0
    case DeleteAlias(id) => AliasDeleted(s, id).0
    case ApplyReports(listing, t) => ReportsApplied(s, listing, t).0
  }

  // ---- addresses ----------------------------------------------------------------------------

  lemma {:induction false} DomainPartOf(local: string, name: string)
    requires !Contains(name, '@')
    ensures DomainPart(AddressAt(local, name)) == name
  {
    var address := AddressAt(local, name);
    assert address[|local|] == '@';
    if local == "" {
      assert address[1..] == name;
    } else {
      DomainPartOf(local[1..], name);
      assert address[1..] == AddressAt(local[1..], name);
    }
  }

  /** A mailbox address never looks like a catch-all. */
  lemma MailboxIsNotCatchAll(local: string, name: string, other: string)
    requires PlainName(local)
    ensures AddressAt(local, name) != AddressAt("", other)
  {
    assert AddressAt(local, name)[0] == local[0] && AddressAt("", other)[0] == '@';
  }

  // ---- what every table state looks like ------------------------------------------------------

  ghost predicate MailboxFits(domains: map<nat, Domain>, m: Mailbox) {
    m.domainId in domains && exists local :: PlainName(local) && m.email == AddressAt(local, domains[m.domainId].name)
  }

  ghost predicate AliasFits(domains: map<nat, Domain>, a: Alias) {
    a.domainId in domains && exists local :: !Contains(local, '@') && a.source == AddressAt(local, domains[a.domainId].name)
  }

  ghost predicate DomainsValid(s: State) {
    && (forall i :: i in s.domains ==> i < s.next && PlainName(s.domains[i].name))
    && (forall i, j :: i in s.domains && j in s.domains && s.domains[i].name == s.domains[j].name ==> i == j)
  }

  ghost predicate MailboxesValid(s: State) {
    && (forall i :: i in s.mailboxes ==> i < s.next && MailboxFits(s.domains, s.mailboxes[i]))
    && (forall i, j :: i in s.mailboxes && j in s.mailboxes && s.mailboxes[i].email == s.mailboxes[j].email ==> i == j)
  }

  ghost predicate SameWay(a: Alias, b: Alias) {
    a.source == b.source && a.destination == b.destination
  }

  ghost predicate AliasesValid(s: State) {
    && (forall i :: i in s.aliases ==> i < s.next && AliasFits(s.domains, s.aliases[i]))
    && (forall i, j :: i in s.aliases && j in s.aliases && SameWay(s.aliases[i], s.aliases[j]) ==> i == j)
  }

  /** No address is both a mailbox and the source of an alias. */
  ghost predicate NoClash(s: State) {
    forall m, a :: m in s.mailboxes && a in s.aliases ==> s.mailboxes[m].email != s.aliases[a].source
  }

  ghost predicate Valid(s: State) {
    DomainsValid(s) && MailboxesValid(s) && AliasesValid(s) && NoClash(s)
  }

  lemma AddingAMailbox(s: State, m: Mailbox)
    requires Valid(s) && MailboxFits(s.domains, m) && Holders(s, m.email) == {} && AliasesFrom(s, m.email) == {}
    ensures Valid(AddMailbox(s, m))
  {
    hide MailboxFits, AliasFits, PlainName, SameWay;
    var t := AddMailbox(s, m);
    forall i | i in s.mailboxes ensures s.mailboxes[i].email != m.email {
      assert s.mailboxes[i].email == m.email ==> i in Holders(s, m.email);
    }
    forall a | a in s.aliases ensures s.aliases[a].source != m.email {
      assert s.aliases[a].source == m.email ==> a in AliasesFrom(s, m.email);
    }
  }

  lemma AddingAnAlias(s: State, a: Alias)
    requires Valid(s) && AliasFits(s.domains, a) && AliasesFromTo(s, a.source, a.destination) == {}
    requires forall m :: m in s.mailboxes ==> s.mailboxes[m].email != a.source
    ensures Valid(AddAlias(s, a))
  {
    hide MailboxFits, AliasFits, PlainName;
    var t := AddAlias(s, a);
    forall i | i in s.aliases ensures !SameWay(s.aliases[i], a) {
      assert SameWay(s.aliases[i], a) ==> i in AliasesFromTo(s, a.source, a.destination);
    }
    assert forall i, j :: i in t.aliases && j in t.aliases && SameWay(t.aliases[i], t.aliases[j]) ==> i == j;
  }

  /** Changing aliases in place without touching their sources. */
  lemma ChangingAliases(s: State, aliases: map<nat, Alias>)
    requires Valid(s)
    requires forall i :: i in aliases ==>
      i in s.aliases && aliases[i].source == s.aliases[i].source && aliases[i].domainId == s.aliases[i].domainId
    requires forall i, j :: i in aliases && j in aliases && SameWay(aliases[i], aliases[j]) ==> i == j
    ensures Valid(s.(aliases := aliases))
  {
    hide PlainName, MailboxFits;
    var t := s.(aliases := aliases);
    forall i | i in aliases ensures i < t.next && AliasFits(t.domains, aliases[i]) {
      assert AliasFits(s.domains, s.aliases[i]);
    }
  }

  lemma ChangingMailboxes(s: State, mailboxes: map<nat, Mailbox>)
    requires Valid(s)
    requires forall i :: i in mailboxes ==>
      i in s.mailboxes && mailboxes[i].email == s.mailboxes[i].email && mailboxes[i].domainId == s.mailboxes[i].domainId
    ensures Valid(s.(mailboxes := mailboxes))
  {
    hide PlainName, AliasFits, SameWay;
    var t := s.(mailboxes := mailboxes);
    forall i | i in mailboxes ensures i < t.next && MailboxFits(t.domains, mailboxes[i]) {
      assert MailboxFits(s.domains, s.mailboxes[i]);
    }
  }

  /** Rows fit other domains as well, as long as theirs is there under its name. */
  lemma KeptNamesFit(s: State, domains: map<nat, Domain>)
    requires MailboxesValid(s) && AliasesValid(s)
    ensures forall i :: i in s.mailboxes && KeepsName(s, domains, s.mailboxes[i].domainId) ==> MailboxFits(domains, s.mailboxes[i])
    ensures forall i :: i in s.aliases && KeepsName(s, domains, s.aliases[i].domainId) ==> AliasFits(domains, s.aliases[i])
  {
    hide PlainName, SameWay, AddressAt;
    forall i | i in s.mailboxes && KeepsName(s, domains, s.mailboxes[i].domainId) ensures MailboxFits(domains, s.mailboxes[i]) {
      assert MailboxFits(s.domains, s.mailboxes[i]);
    }
    forall i | i in s.aliases && KeepsName(s, domains, s.aliases[i].domainId) ensures AliasFits(domains, s.aliases[i]) {
      assert AliasFits(s.domains, s.aliases[i]);
    }
  }

  predicate KeepsName(s: State, domains: map<nat, Domain>, id: nat) {
    id in s.domains ==> id in domains && domains[id].name == s.domains[id].name
  }

  lemma SwitchingKeepsValid(s: State, id: nat, on: bool)
    requires Valid(s)
    ensures Valid(DomainSwitched(s, id, on).0)
  {
    hide PlainName, SameWay, MailboxFits, AliasFits;
    KeptNamesFit(s, DomainSwitched(s, id, on).0.domains);
  }

  lemma CreatingADomainKeepsValid(s: State, name: string)
    requires Valid(s) && PlainName(name)
    ensures Valid(DomainCreated(s, name).0)
  {
    hide PlainName, SameWay, MailboxFits, AliasFits;
    var t := DomainCreated(s, name).0;
    if t != s {
      forall i | i in s.domains ensures s.domains[i].name != name {
        assert s.domains[i].name == name ==> i in NamedDomains(s, name);
      }
      KeptNamesFit(s, t.domains);
    }
  }

  lemma DroppingAnEmptyDomain(s: State, id: nat)
    requires Valid(s)
    requires forall m :: m in s.mailboxes ==> s.mailboxes[m].domainId != id
    requires forall a :: a in s.aliases ==> s.aliases[a].domainId != id
    ensures Valid(s.(domains := s.domains - {id}))
  {
    hide PlainName, SameWay, MailboxFits, AliasFits;
    KeptNamesFit(s, s.domains - {id});
  }

  lemma DeletingADomainKeepsValid(s: State, id: nat)
    requires Valid(s)
    ensures Valid(DomainDeleted(s, id).0)
  {
    hide DomainsValid, MailboxesValid, NoClash, MailboxFits, AliasFits, ActiveAdmins, ActiveAdminsOf;
    if DomainDeleted(s, id).1 == Done {
      var mailboxes := map m | m in s.mailboxes && s.mailboxes[m].domainId != id :: s.mailboxes[m];
      var aliases := map a | a in s.aliases && s.aliases[a].domainId != id :: s.aliases[a];
      ChangingMailboxes(s, mailboxes);
      var u := s.(mailboxes := mailboxes);
      ChangingAliases(u, aliases);
      DroppingAnEmptyDomain(u.(aliases := aliases), id);
    }
  }

  lemma CatchAllFits(s: State, id: nat, destination: string)
    requires Valid(s) && id in s.domains
    ensures AliasFits(s.domains, Alias(id, AddressAt("", s.domains[id].name), destination, true))
    ensures forall m :: m in s.mailboxes ==> s.mailboxes[m].email != AddressAt("", s.domains[id].name)
  {
    assert !Contains("", '@');
    forall m | m in s.mailboxes ensures s.mailboxes[m].email != AddressAt("", s.domains[id].name) {
      var box := s.mailboxes[m];
      assert MailboxFits(s.domains, box);
      var local :| PlainName(local) && box.email == AddressAt(local, s.domains[box.domainId].name);
      MailboxIsNotCatchAll(local, s.domains[box.domainId].name, s.domains[id].name);
    }
  }

  /** Every catch-all source of a domain belongs to that domain, so setting one clears the way for it. */
  lemma CatchAllIsCleared(s: State, id: nat, a: nat)
    requires Valid(s) && id in s.domains && a in s.aliases && s.aliases[a].source == AddressAt("", s.domains[id].name)
    ensures s.aliases[a].domainId == id
  {
    var alias := s.aliases[a];
    assert AliasFits(s.domains, alias) && PlainName(s.domains[id].name) && PlainName(s.domains[alias.domainId].name);
    var local :| !Contains(local, '@') && alias.source == AddressAt(local, s.domains[alias.domainId].name);
    DomainPartOf(local, s.domains[alias.domainId].name);
    DomainPartOf("", s.domains[id].name);
  }

  lemma SettingCatchAllKeepsValid(s: State, id: nat, destination: Option<string>)
    requires Valid(s)
    ensures Valid(CatchAllSet(s, id, destination).0)
  {
    hide PlainName, AliasFits, MailboxFits, SendOnly, AddressAt;
    if CatchAllSet(s, id, destination).1 == Done {
      var source := AddressAt("", s.domains[id].name);
      var kept := map a | a in s.aliases && !(s.aliases[a].domainId == id && s.aliases[a].source == source) :: s.aliases[a];
      ChangingAliases(s, kept);
      if destination.Some? {
        var cleared := s.(aliases := kept);
        CatchAllFits(s, id, destination.value);
        forall a | a in kept ensures kept[a].source != source {
          if s.aliases[a].source == source {
            CatchAllIsCleared(s, id, a);
          }
        }
        assert AliasesFromTo(cleared, source, destination.value) == {};
        AddingAnAlias(cleared, Alias(id, source, destination.value, true));
      }
    }
  }

  lemma CreatingAMailboxKeepsValid(s: State, id: nat, local: string, admin: bool, receives: bool)
    requires Valid(s) && PlainName(local)
    ensures Valid(MailboxCreated(s, id, local, admin, receives).0)
  {
    if MailboxCreated(s, id, local, admin, receives).1 == Done {
      var m := Mailbox(id, AddressAt(local, s.domains[id].name), admin, true, receives);
      assert MailboxFits(s.domains, m);
      hide Valid, MailboxFits;
      AddingAMailbox(s, m);
    }
  }

  lemma CreatingAnAliasKeepsValid(s: State, id: nat, local: string, destination: string)
    requires Valid(s) && !Contains(local, '@')
    ensures Valid(AliasCreated(s, id, local, destination).0)
  {
    if AliasCreated(s, id, local, destination).1 == Done {
      var a := Alias(id, AddressAt(local, s.domains[id].name), destination, true);
      assert AliasFits(s.domains, a);
      if local == "" {
        CatchAllFits(s, id, destination);
      } else {
        forall m | m in s.mailboxes ensures s.mailboxes[m].email != a.source {
          assert s.mailboxes[m].email == a.source ==> m in Holders(s, a.source);
        }
      }
      hide Valid, AliasFits;
      AddingAnAlias(s, a);
    }
  }

  lemma UpdatingAnAliasKeepsValid(s: State, id: nat, destination: Option<string>, active: Option<bool>)
    requires Valid(s)
    ensures Valid(AliasUpdated(s, id, destination, active).0)
  {
    hide SendOnly, DomainsValid, MailboxesValid, NoClash, AliasFits;
    var t := AliasUpdated(s, id, destination, active).0;
    if t != s {
      var b := t.aliases[id];
      forall i | i in s.aliases && i != id ensures !SameWay(s.aliases[i], b) {
        assert SameWay(s.aliases[i], b) ==> i in AliasesFromTo(s, b.source, b.destination) - {id};
      }
      ChangingAliases(s, t.aliases);
    }
  }

  // ---- setting up the report addresses ----------------------------------------------------------

  lemma {:induction false} WantedIff(s: State, listing: seq<nat>, w: Wanted)
    requires forall i :: 0 <= i < |listing| ==> listing[i] in s.domains
    ensures w in WantedAddresses(s, listing)
       <==> w.domainId in listing && w in WantedOf(w.domainId, s.domains[w.domainId].name)
  {
    if listing != [] {
      WantedIff(s, listing[1..], w);
      assert listing == [listing[0]] + listing[1..];
    }
  }

  lemma WantedFits(s: State, w: Wanted, destination: string)
    requires w.domainId in s.domains && w in WantedOf(w.domainId, s.domains[w.domainId].name)
    ensures AliasFits(s.domains, Alias(w.domainId, w.address, destination, true))
  {
    var local := if w.address == AddressAt(REPORT_LOCAL_PARTS[0], s.domains[w.domainId].name) then REPORT_LOCAL_PARTS[0] else REPORT_LOCAL_PARTS[1];
    assert !Contains(local, '@') && w.address == AddressAt(local, s.domains[w.domainId].name);
  }

  /** The alias is there and active, nothing else has changed but ids. */
  ghost predicate Grew(s: State, t: State) {
    && t.domains == s.domains && t.mailboxes == s.mailboxes
    && forall a :: a in s.aliases ==>
         a in t.aliases && t.aliases[a] == s.aliases[a].(active := t.aliases[a].active) && (s.aliases[a].active ==> t.aliases[a].active)
  }

  ghost predicate Forwards(s: State, source: string, destination: string) {
    exists a :: a in AliasesFromTo(s, source, destination) && s.aliases[a].active
  }

  lemma ForwardingOne(s: State, w: Wanted, destination: string)
    requires Valid(s) && AliasFits(s.domains, Alias(w.domainId, w.address, destination, true))
    requires forall m :: m in s.mailboxes ==> s.mailboxes[m].email != w.address
    ensures var t := Forwarded(s, w, destination); Valid(t) && Grew(s, t) && Forwards(t, w.address, destination)
  {
    hide AliasFits, MailboxFits, PlainName;
    var t := Forwarded(s, w, destination);
    var existing := AliasesFromTo(s, w.address, destination);
    if existing != {} {
      var a :| a in existing;
      assert a in AliasesFromTo(t, w.address, destination) && t.aliases[a].active;
      ChangingAliases(s, t.aliases);
      assert t == s.(aliases := t.aliases);
    } else {
      AddingAnAlias(s, Alias(w.domainId, w.address, destination, true));
      assert s.next !in s.aliases;
      assert s.next in AliasesFromTo(t, w.address, destination) && t.aliases[s.next].active;
    }
  }

  lemma GrewTwice(s: State, t: State, u: State)
    requires Grew(s, t) && Grew(t, u)
    ensures Grew(s, u)
  {
  }

  lemma GrowingForwards(s: State, t: State, source: string, destination: string)
    requires Grew(s, t) && Forwards(s, source, destination)
    ensures Forwards(t, source, destination)
  {
    var a :| a in AliasesFromTo(s, source, destination) && s.aliases[a].active;
    assert a in AliasesFromTo(t, source, destination) && t.aliases[a].active;
  }

  ghost predicate CanForward(s: State, w: Wanted, destination: string) {
    w.address != destination ==>
      AliasFits(s.domains, Alias(w.domainId, w.address, destination, true)) && forall m :: m in s.mailboxes ==> s.mailboxes[m].email != w.address
  }

  lemma {:induction false} ForwardingAll(s: State, missing: seq<Wanted>, destination: string)
    requires Valid(s) && forall i :: 0 <= i < |missing| ==> CanForward(s, missing[i], destination)
    ensures var t := AllForwarded(s, missing, destination).0;
      && Valid(t) && Grew(s, t)
      && forall i :: 0 <= i < |missing| && missing[i].address != destination ==> Forwards(t, missing[i].address, destination)
  {
    hide Valid, Forwards, AliasFits, Forwarded;
    if missing != [] {
      var n := |missing| - 1;
      ForwardingAll(s, missing[..n], destination);
      var before, last := AllForwarded(s, missing[..n], destination).0, missing[n];
      if last.address != destination {
        assert CanForward(s, last, destination);
        ForwardingOne(before, last, destination);
        var t := Forwarded(before, last, destination);
        GrewTwice(s, before, t);
        hide Grew;
        forall i | 0 <= i < n && missing[i].address != destination ensures Forwards(t, missing[i].address, destination) {
          assert missing[..n][i] == missing[i];
          GrowingForwards(before, t, missing[i].address, destination);
        }
      }
    }
  }

  /** The tables after the step that may add a mailbox for the reports. */
  function Housed(s: State, t: Target): (State, Outcome) {
    if t.NewMailbox? then MailboxCreated(s, t.domainId, t.local, false, true) else (s, Done)
  }

  lemma MissingCanForward(s: State, listing: seq<nat>, t: Target, w: Wanted)
    requires Valid(s) && IsListing(s, listing) && ReportsApplied(s, listing, t).2 == Done
    requires w in NotDelivering(s, WantedAddresses(s, listing))
    ensures CanForward(Housed(s, t).0, w, TargetAddress(s, t))
  {
    hide Valid, Deliverable, DomainPart, AllForwarded;
    WantedIff(s, listing, w);
    WantedFits(s, w, TargetAddress(s, t));
    assert ReportStateOf(s, w.address) == Missing;
    assert Holders(s, w.address) == {};
    var housed := Housed(s, t).0;
    if w.address != TargetAddress(s, t) {
      forall m | m in housed.mailboxes ensures housed.mailboxes[m].email != w.address {
        if m in s.mailboxes && housed.mailboxes[m] == s.mailboxes[m] {
          assert s.mailboxes[m].email == w.address ==> m in Holders(s, w.address);
        }
      }
    }
  }

  /** How a successful run got there. */
  lemma ReportsAppliedShape(s: State, listing: seq<nat>, t: Target)
    requires IsListing(s, listing) && ReportsApplied(s, listing, t).2 == Done
    ensures t.NewMailbox? ==> t.domainId in s.domains
    ensures var missing := NotDelivering(s, WantedAddresses(s, listing)); var result := ReportsApplied(s, listing, t);
      && Housed(s, t).1 == Done
      && (result.0, result.1) == AllForwarded(Housed(s, t).0, missing, TargetAddress(s, t))
      && (t.Forward? ==> forall w :: w in missing ==> w.address != t.destination)
      && (t.Forward? ==> NamedDomains(s, DomainPart(t.destination)) == {} || Deliverable(s, t.destination))
  {
    hide MailboxCreated, AllForwarded, Deliverable, DomainPart, IsListing, NotDelivering, WantedAddresses;
  }

  lemma ApplyingReports(s: State, listing: seq<nat>, t: Target)
    requires Valid(s) && IsListing(s, listing) && ReportsApplied(s, listing, t).2 == Done && (t.NewMailbox? ==> PlainName(t.local))
    ensures var housed, after := Housed(s, t).0, ReportsApplied(s, listing, t).0;
      && Valid(housed) && Valid(after) && Grew(housed, after)
      && forall w :: w in NotDelivering(s, WantedAddresses(s, listing)) && w.address != TargetAddress(s, t) ==>
           Forwards(after, w.address, TargetAddress(s, t))
  {
    ReportsAppliedShape(s, listing, t);
    var missing := NotDelivering(s, WantedAddresses(s, listing));
    var housed := Housed(s, t).0;
    forall i | 0 <= i < |missing| ensures CanForward(housed, missing[i], TargetAddress(s, t)) {
      MissingCanForward(s, listing, t, missing[i]);
    }
    if t.NewMailbox? {
      CreatingAMailboxKeepsValid(s, t.domainId, t.local, false, true);
    }
    hide Valid, Forwards, AllForwarded, ReportsApplied, NotDelivering, MailboxCreated, CanForward, Grew, IsListing;
    ForwardingAll(housed, missing, TargetAddress(s, t));
  }

  // ---- every run ----------------------------------------------------------------------------------

  lemma StepKeepsValid(s: State, op: Op)
    requires Valid(s) && Allowed(s, op)
    ensures Valid(Step(s, op))
  {
    hide Valid, PlainName, Contains, DomainCreated, DomainSwitched, DomainDeleted, CatchAllSet, MailboxCreated, AliasCreated, AliasUpdated;
    match op
    case CreateDomain(name) => CreatingADomainKeepsValid(s, name);
    case SwitchDomain(id, on) => SwitchingKeepsValid(s, id, on);
    case DeleteDomain(id) => DeletingADomainKeepsValid(s, id);
    case SetCatchAll(id, target) => SettingCatchAllKeepsValid(s, id, target);
    case CreateMailbox(id, local, admin, receives) => CreatingAMailboxKeepsValid(s, id, local, admin, receives);
    case UpdateMailbox(id, update) => ChangingMailboxes(s, MailboxUpdated(s, id, update).0.mailboxes);
    case DeleteMailbox(id) => ChangingMailboxes(s, MailboxDeleted(s, id).0.mailboxes);
    case CreateAlias(id, local, destination) => CreatingAnAliasKeepsValid(s, id, local, destination);
    case UpdateAlias(id, target, activate) => UpdatingAnAliasKeepsValid(s, id, target, activate);
    case DeleteAlias(id) => DeletingAnAliasKeepsValid(s, id);
    case ApplyReports(listing, t) =>
      if ReportsApplied(s, listing, t).2 == Done {
        ApplyingReports(s, listing, t);
      } else {
        RefusedReportsChangeNothing(s, listing, t);
      }
  }

  lemma DeletingAnAliasKeepsValid(s: State, id: nat)
    requires Valid(s)
    ensures Valid(AliasDeleted(s, id).0)
  {
    ChangingAliases(s, s.aliases - {id});
  }

  lemma RefusedReportsChangeNothing(s: State, listing: seq<nat>, t: Target)
    requires IsListing(s, listing) && ReportsApplied(s, listing, t).2 != Done
    ensures ReportsApplied(s, listing, t).0 == s && ReportsApplied(s, listing, t).1 == []
  {
    hide MailboxCreated, AllForwarded, Deliverable, DomainPart, IsListing, NotDelivering, WantedAddresses;
  }

  ghost predicate IsRun(ops: seq<Op>, states: seq<State>) {
    && |states| == |ops| + 1 && states[0] == EMPTY
    && forall k :: 0 <= k < |ops| ==> Allowed(states[k], ops[k]) && states[k + 1] == Step(states[k], ops[k])
  }

  lemma {:induction false} RunKeepsValid(ops: seq<Op>, states: seq<State>, n: nat)
    requires IsRun(ops, states) && n < |states|
    ensures Valid(states[n])
  {
    hide Step, Allowed;
    if n == 0 {
    } else {
      RunKeepsValid(ops, states, n - 1);
      hide Valid;
      StepKeepsValid(states[n - 1], ops[n - 1]);
      assert states[n - 1 + 1] == Step(states[n - 1], ops[n - 1]);
    }
  }

  /** Over every run of the operations no address is both a mailbox and the source of an alias. */
  lemma AddressesNeverClash(ops: seq<Op>, states: seq<State>, n: nat, m: nat, a: nat)
    requires IsRun(ops, states) && n < |states| && m in states[n].mailboxes && a in states[n].aliases
    ensures states[n].mailboxes[m].email != states[n].aliases[a].source
  {
    RunKeepsValid(ops, states, n);
  }

  // ---- administrators ---------------------------------------------------------------------------

  lemma OthersRemain(whole: set<nat>, here: set<nat>)
    requires here <= whole && (|here| == 0 || |whole| - |here| > 0)
    ensures whole == {} || whole - here != {}
  {
    assert whole * here == here;
    assert |whole - here| == |whole| - |here|;
    assert |here| == 0 ==> whole - here == whole;
  }

  lemma UpdateKeepsAnAdmin(s: State, id: nat, u: MailboxUpdate)
    requires ActiveAdmins(s) != {}
    ensures ActiveAdmins(MailboxUpdated(s, id, u).0) != {}
  {
    var t := MailboxUpdated(s, id, u).0;
    if t != s {
      var admin :| admin in ActiveAdmins(s);
      if admin != id {
        assert admin in ActiveAdmins(t);
      } else if u.isAdmin == Some(false) || u.active == Some(false) {
        assert ActiveAdmins(s) - {id} != {};
        var other :| other in ActiveAdmins(s) - {id};
        assert other in ActiveAdmins(t);
      } else {
        assert id in ActiveAdmins(t);
      }
    }
  }

  lemma DeletionKeepsAnAdmin(s: State, id: nat)
    requires ActiveAdmins(s) != {}
    ensures ActiveAdmins(MailboxDeleted(s, id).0) != {}
  {
    var t := MailboxDeleted(s, id).0;
    if t != s {
      var admin :| admin in ActiveAdmins(s);
      if admin == id {
        assert ActiveAdmins(s) - {id} != {};
        admin :| admin in ActiveAdmins(s) - {id};
      }
      assert admin in ActiveAdmins(t);
    }
  }

  lemma DomainDeletionKeepsAnAdmin(s: State, id: nat)
    requires ActiveAdmins(s) != {}
    ensures ActiveAdmins(DomainDeleted(s, id).0) != {}
  {
    if DomainDeleted(s, id).1 == Done {
      OthersRemain(ActiveAdmins(s), ActiveAdminsOf(s, id));
      var admin :| admin in ActiveAdmins(s) - ActiveAdminsOf(s, id);
      assert admin in ActiveAdmins(DomainDeleted(s, id).0);
    }
  }

  lemma CreationKeepsAnAdmin(s: State, m: Mailbox)
    requires Valid(s) && ActiveAdmins(s) != {}
    ensures ActiveAdmins(AddMailbox(s, m)) != {}
  {
    var admin :| admin in ActiveAdmins(s);
    assert admin in ActiveAdmins(AddMailbox(s, m));
  }

  lemma SameMailboxesSameAdmins(s: State, t: State)
    requires s.mailboxes == t.mailboxes
    ensures ActiveAdmins(s) == ActiveAdmins(t)
  {
  }

  lemma CreatingKeepsAnAdmin(s: State, id: nat, local: string, admin: bool, receives: bool)
    requires Valid(s) && ActiveAdmins(s) != {}
    ensures ActiveAdmins(MailboxCreated(s, id, local, admin, receives).0) != {}
  {
    hide ActiveAdmins, Valid;
    if MailboxCreated(s, id, local, admin, receives).1 == Done {
      CreationKeepsAnAdmin(s, Mailbox(id, AddressAt(local, s.domains[id].name), admin, true, receives));
    }
  }

  lemma ReportsKeepAnAdmin(s: State, listing: seq<nat>, t: Target)
    requires Valid(s) && ActiveAdmins(s) != {} && IsListing(s, listing) && (t.NewMailbox? ==> PlainName(t.local))
    ensures ActiveAdmins(ReportsApplied(s, listing, t).0) != {}
  {
    hide Valid, ActiveAdmins, ReportsApplied, IsListing, MailboxCreated;
    if ReportsApplied(s, listing, t).2 == Done {
      ApplyingReports(s, listing, t);
      if t.NewMailbox? {
        CreatingKeepsAnAdmin(s, t.domainId, t.local, false, true);
      }
      SameMailboxesSameAdmins(Housed(s, t).0, ReportsApplied(s, listing, t).0);
    } else {
      RefusedReportsChangeNothing(s, listing, t);
    }
  }

  lemma StepKeepsAnAdmin(s: State, op: Op)
    requires Valid(s) && Allowed(s, op) && ActiveAdmins(s) != {}
    ensures ActiveAdmins(Step(s, op)) != {}
  {
    hide Valid, ActiveAdmins, MailboxCreated, MailboxUpdated, MailboxDeleted, DomainDeleted, ReportsApplied;
    match op
    case DeleteDomain(id) => DomainDeletionKeepsAnAdmin(s, id);
    case CreateMailbox(id, local, admin, receives) => CreatingKeepsAnAdmin(s, id, local, admin, receives);
    case UpdateMailbox(id, update) => UpdateKeepsAnAdmin(s, id, update);
    case DeleteMailbox(id) => DeletionKeepsAnAdmin(s, id);
    case ApplyReports(listing, t) => ReportsKeepAnAdmin(s, listing, t);
    case _ => SameMailboxesSameAdmins(s, Step(s, op));
  }

  /** Once there is an active administrator there always is one. */
  lemma {:induction false} AnAdminAlwaysRemains(ops: seq<Op>, states: seq<State>, m: nat, n: nat)
    requires IsRun(ops, states) && m <= n < |states| && ActiveAdmins(states[m]) != {}
    ensures ActiveAdmins(states[n]) != {}
  {
    hide Valid, ActiveAdmins, Step, Allowed;
    if m < n {
      AnAdminAlwaysRemains(ops, states, m, n - 1);
      RunKeepsValid(ops, states, n - 1);
      StepKeepsAnAdmin(states[n - 1], ops[n - 1]);
      assert states[n - 1 + 1] == Step(states[n - 1], ops[n - 1]);
    }
  }

  // ---- the report addresses deliver ---------------------------------------------------------------

  /** What delivers keeps delivering: mailboxes are as before or one more, active and receiving; aliases only grow. */
  lemma HousingKeepsDelivering(s: State, t: Target, address: string)
    requires Valid(s) && (t.NewMailbox? ==> PlainName(t.local) && t.domainId in s.domains) && Housed(s, t).1 == Done
    ensures ReportStateOf(s, address) == Delivers ==> ReportStateOf(Housed(s, t).0, address) == Delivers
    ensures t.NewMailbox? ==> ReportStateOf(Housed(s, t).0, TargetAddress(s, t)) == Delivers
  {
    hide MailboxFits, AliasFits, DomainsValid, AliasesValid, NoClash;
    if t.NewMailbox? {
      var u := Housed(s, t).0;
      assert s.next in Holders(u, TargetAddress(s, t)) && u.mailboxes[s.next].active && u.mailboxes[s.next].receiveMail;
      if address != TargetAddress(s, t) {
        assert forall m :: m in s.mailboxes ==> u.mailboxes[m] == s.mailboxes[m];
        assert Holders(u, address) == Holders(s, address);
        assert AliasesFrom(u, address) == AliasesFrom(s, address);
      }
    }
  }

  lemma GrowingKeepsDelivering(s: State, t: State, address: string)
    requires Grew(s, t) && ReportStateOf(s, address) == Delivers
    ensures ReportStateOf(t, address) == Delivers
  {
    assert Holders(t, address) == Holders(s, address);
    if a :| a in AliasesFrom(s, address) && s.aliases[a].active {
      assert a in AliasesFrom(t, address) && t.aliases[a].active;
    }
  }

  lemma ForwardingDelivers(s: State, address: string, destination: string)
    requires Forwards(s, address, destination) && NoClash(s)
    ensures ReportStateOf(s, address) == Delivers
  {
    var a :| a in AliasesFromTo(s, address, destination) && s.aliases[a].active;
    assert a in AliasesFrom(s, address);
    assert Holders(s, address) == {};
  }

  lemma AppliedDelivers(s: State, listing: seq<nat>, t: Target, w: Wanted)
    requires Valid(s) && IsListing(s, listing) && ReportsApplied(s, listing, t).2 == Done && (t.NewMailbox? ==> PlainName(t.local))
    requires w in WantedAddresses(s, listing)
    ensures ReportStateOf(ReportsApplied(s, listing, t).0, w.address) == Delivers
  {
    ApplyingReports(s, listing, t);
    ReportsAppliedShape(s, listing, t);
    var housed, after := Housed(s, t).0, ReportsApplied(s, listing, t).0;
    HousingKeepsDelivering(s, t, w.address);
    hide ReportsApplied, MailboxCreated, ReportStateOf, Grew, Forwards, IsListing;
    if ReportStateOf(s, w.address) == Delivers || w.address == TargetAddress(s, t) {
      GrowingKeepsDelivering(housed, after, w.address);
    } else {
      assert Forwards(after, w.address, TargetAddress(s, t));
      ForwardingDelivers(after, w.address, TargetAddress(s, t));
    }
  }

  /**
   * After a successful run every report address of every active domain delivers, and running it again, however the domains
   * are listed, finds nothing missing, adds no address, and with a forward leaves the directory alone.
   */
  lemma ReportsDeliverOnceApplied(s: State, listing: seq<nat>, t: Target, again: seq<nat>, other: Target)
    requires Valid(s) && IsListing(s, listing) && ReportsApplied(s, listing, t).2 == Done && (t.NewMailbox? ==> PlainName(t.local))
    requires IsListing(ReportsApplied(s, listing, t).0, again)
    ensures var after := ReportsApplied(s, listing, t).0;
      && (forall id, k :: id in after.domains && after.domains[id].active && 0 <= k < 2 ==>
            ReportStateOf(after, AddressAt(REPORT_LOCAL_PARTS[k], after.domains[id].name)) == Delivers)
      && ReportsApplied(after, again, other).1 == []
      && (other.Forward? ==> ReportsApplied(after, again, other).0 == after)
  {
    var after := ReportsApplied(s, listing, t).0;
    ReportsKeepDomains(s, listing, t);
    hide Valid, ReportsApplied, ReportStateOf, NotDelivering, Housed, WantedAddresses, TargetAddress, AddressAt, PlainName;
    forall id, k | id in after.domains && after.domains[id].active && 0 <= k < 2
      ensures ReportStateOf(after, AddressAt(REPORT_LOCAL_PARTS[k], after.domains[id].name)) == Delivers
    {
      var w := Wanted(id, AddressAt(REPORT_LOCAL_PARTS[k], s.domains[id].name));
      WantedIff(s, listing, w);
      AppliedDelivers(s, listing, t, w);
    }
    forall w | w in WantedAddresses(after, again) ensures ReportStateOf(after, w.address) == Delivers {
      SameWanted(s, listing, after, again, w);
      AppliedDelivers(s, listing, t, w);
    }
    NothingMissingNothingAdded(after, again, other);
  }

  lemma ReportsKeepDomains(s: State, listing: seq<nat>, t: Target)
    requires Valid(s) && IsListing(s, listing) && ReportsApplied(s, listing, t).2 == Done && (t.NewMailbox? ==> PlainName(t.local))
    ensures ReportsApplied(s, listing, t).0.domains == s.domains
  {
    ApplyingReports(s, listing, t);
    HousingKeepsDomains(s, t);
  }

  lemma SameWanted(s: State, listing: seq<nat>, t: State, again: seq<nat>, w: Wanted)
    requires s.domains == t.domains && IsListing(s, listing) && IsListing(t, again)
    ensures w in WantedAddresses(t, again) <==> w in WantedAddresses(s, listing)
  {
    WantedIff(s, listing, w);
    WantedIff(t, again, w);
    hide WantedOf, WantedAddresses;
    assert w.domainId in listing <==> w.domainId in again;
  }

  lemma HousingKeepsDomains(s: State, t: Target)
    ensures Housed(s, t).0.domains == s.domains
  {
  }

  lemma EmptyOrListed(list: seq<Wanted>)
    ensures list == [] || exists w :: w in list
  {
    if list != [] {
      assert list[0] in list;
    }
  }

  lemma NothingMissingNothingAdded(s: State, listing: seq<nat>, t: Target)
    requires IsListing(s, listing) && forall w :: w in WantedAddresses(s, listing) ==> ReportStateOf(s, w.address) == Delivers
    ensures ReportsApplied(s, listing, t).1 == [] && (t.Forward? ==> ReportsApplied(s, listing, t).0 == s)
  {
    hide ReportStateOf, WantedAddresses, Deliverable, DomainPart, MailboxCreated;
    var missing := NotDelivering(s, WantedAddresses(s, listing));
    EmptyOrListed(missing);
  }

  // ---- send-only mailboxes ------------------------------------------------------------------------

  /** No active alias points at a mailbox that does not receive. */
  ghost predicate NoLostMail(s: State) {
    forall a, m :: a in s.aliases && s.aliases[a].active && m in s.mailboxes && s.aliases[a].destination == s.mailboxes[m].email ==>
      s.mailboxes[m].receiveMail
  }

  /** The two doors the checks leave open: re-enabling an alias, and creating a send-only mailbox behind one. */
  ghost predicate Leaks(s: State, op: Op) {
    match op
    case UpdateAlias(id, target, activate) =>
      && id in s.aliases && !s.aliases[id].active && activate == Some(true)
      && (target == None || target == Some(s.aliases[id].destination)) && SendOnly(s, s.aliases[id].destination)
    case CreateMailbox(id, local, admin, receives) =>
      && !receives && MailboxCreated(s, id, local, admin, receives).1 == Done
      && ActiveAliasesTo(s, AddressAt(local, s.domains[id].name)) != {}
    case _ => false
  }

  lemma AddedAliasLeaks(s: State, a: Alias)
    requires Valid(s) && NoLostMail(s) && a.active && !SendOnly(s, a.destination)
    ensures NoLostMail(AddAlias(s, a))
  {
    hide Valid;
    var t := AddAlias(s, a);
    forall m | m in t.mailboxes && t.mailboxes[m].email == a.destination ensures t.mailboxes[m].receiveMail {
      assert m in Holders(s, a.destination);
    }
  }

  lemma CreatingLeaksIff(s: State, id: nat, local: string, admin: bool, receives: bool)
    requires Valid(s) && NoLostMail(s)
    ensures NoLostMail(MailboxCreated(s, id, local, admin, receives).0) <==> !Leaks(s, CreateMailbox(id, local, admin, receives))
  {
    hide DomainsValid, AliasesValid, NoClash, MailboxFits, AddressAt;
    var t := MailboxCreated(s, id, local, admin, receives).0;
    if MailboxCreated(s, id, local, admin, receives).1 == Done {
      var email := AddressAt(local, s.domains[id].name);
      assert s.next !in s.mailboxes && t.mailboxes[s.next].email == email;
      if a :| a in ActiveAliasesTo(s, email) {
        assert t.aliases[a].active && t.aliases[a].destination == t.mailboxes[s.next].email;
      } else {
        forall a | a in t.aliases && t.aliases[a].active ensures t.aliases[a].destination != email {
          assert t.aliases[a].destination == email ==> a in ActiveAliasesTo(s, email);
        }
      }
    }
  }

  lemma UpdatingAliasLeaksIff(s: State, id: nat, target: Option<string>, activate: Option<bool>)
    requires Valid(s) && NoLostMail(s)
    ensures NoLostMail(AliasUpdated(s, id, target, activate).0) <==> !Leaks(s, UpdateAlias(id, target, activate))
  {
    hide DomainsValid, MailboxesValid, NoClash, AliasFits;
    var t := AliasUpdated(s, id, target, activate).0;
    if id in s.aliases {
      var a, b := s.aliases[id], t.aliases[id];
      if Leaks(s, UpdateAlias(id, target, activate)) {
        assert AliasesFromTo(s, a.source, a.destination) - {id} == {} by {
          assert forall i :: i in s.aliases && SameWay(s.aliases[i], a) ==> i == id;
        }
        assert t.aliases[id].active;
        var m :| m in Holders(s, a.destination) && !s.mailboxes[m].receiveMail;
        assert t.aliases[id].destination == t.mailboxes[m].email;
      } else {
        forall m | b.active && m in t.mailboxes && b.destination == t.mailboxes[m].email ensures t.mailboxes[m].receiveMail {
          assert m in Holders(s, b.destination);
        }
      }
    }
  }

  lemma UpdatingMailboxLeaksNot(s: State, id: nat, u: MailboxUpdate)
    requires NoLostMail(s)
    ensures NoLostMail(MailboxUpdated(s, id, u).0)
  {
    hide LastAdmin;
    var t := MailboxUpdated(s, id, u).0;
    forall a, m | a in t.aliases && t.aliases[a].active && m in t.mailboxes && t.aliases[a].destination == t.mailboxes[m].email
      ensures t.mailboxes[m].receiveMail
    {
      if m == id && u.receiveMail == Some(false) {
        assert a in ActiveAliasesTo(s, s.mailboxes[id].email);
      }
    }
  }

  lemma CatchAllLeaksNot(s: State, id: nat, target: Option<string>)
    requires Valid(s) && NoLostMail(s)
    ensures NoLostMail(CatchAllSet(s, id, target).0)
  {
    if CatchAllSet(s, id, target).1 == Done && target.Some? {
      forall m | m in s.mailboxes && s.mailboxes[m].email == target.value ensures s.mailboxes[m].receiveMail {
        assert m in Holders(s, target.value);
      }
    }
  }

  lemma CreatingAliasLeaksNot(s: State, id: nat, local: string, destination: string)
    requires Valid(s) && NoLostMail(s)
    ensures NoLostMail(AliasCreated(s, id, local, destination).0)
  {
    hide Valid, SendOnly;
    if AliasCreated(s, id, local, destination).1 == Done {
      AddedAliasLeaks(s, Alias(id, AddressAt(local, s.domains[id].name), destination, true));
    }
  }

  /** Nobody but its own domain's mailboxes can hold an address, so a foreign or deliverable destination is never send-only. */
  lemma ReportTargetReceives(s: State, listing: seq<nat>, t: Target)
    requires Valid(s) && IsListing(s, listing) && ReportsApplied(s, listing, t).2 == Done
    ensures !SendOnly(Housed(s, t).0, TargetAddress(s, t))
  {
    ReportsAppliedShape(s, listing, t);
    var destination, housed := TargetAddress(s, t), Housed(s, t).0;
    forall m | m in Holders(housed, destination) ensures housed.mailboxes[m].receiveMail {
      if t.NewMailbox? {
        assert m in s.mailboxes && m != s.next ==> m in Holders(s, destination);
      } else {
        HolderOfDeliverable(s, m, destination);
      }
    }
  }

  lemma HolderOfDeliverable(s: State, m: nat, destination: string)
    requires Valid(s) && m in Holders(s, destination)
    requires NamedDomains(s, DomainPart(destination)) == {} || Deliverable(s, destination)
    ensures s.mailboxes[m].receiveMail
  {
    var box := s.mailboxes[m];
    assert MailboxFits(s.domains, box) && PlainName(s.domains[box.domainId].name);
    var local :| PlainName(local) && box.email == AddressAt(local, s.domains[box.domainId].name);
    DomainPartOf(local, s.domains[box.domainId].name);
    assert box.domainId in NamedDomains(s, DomainPart(destination));
    hide DomainPart, MailboxFits, AliasFits, PlainName;
    if a :| a in AliasesFrom(s, destination) && s.aliases[a].active {
      assert s.mailboxes[m].email != s.aliases[a].source;
    } else {
      var h :| h in Holders(s, destination) && s.mailboxes[h].active && s.mailboxes[h].receiveMail;
      assert h == m;
    }
  }

  lemma {:induction false} ForwardingLeaksNot(s: State, missing: seq<Wanted>, destination: string)
    requires NoLostMail(s) && !SendOnly(s, destination)
    ensures var t := AllForwarded(s, missing, destination).0; NoLostMail(t) && t.mailboxes == s.mailboxes
  {
    if missing != [] {
      var n := |missing| - 1;
      ForwardingLeaksNot(s, missing[..n], destination);
      var before := AllForwarded(s, missing[..n], destination).0;
      forall m | m in before.mailboxes && before.mailboxes[m].email == destination ensures before.mailboxes[m].receiveMail {
        assert m in Holders(s, destination);
      }
    }
  }

  lemma ReportsLeakNot(s: State, listing: seq<nat>, t: Target)
    requires Valid(s) && NoLostMail(s) && IsListing(s, listing)
    ensures NoLostMail(ReportsApplied(s, listing, t).0)
  {
    if ReportsApplied(s, listing, t).2 == Done {
      ReportTargetReceives(s, listing, t);
      ReportsAppliedShape(s, listing, t);
      if t.NewMailbox? {
        CreatingLeaksIff(s, t.domainId, t.local, false, true);
      }
      hide Valid, NoLostMail, SendOnly, ReportsApplied, AllForwarded, MailboxCreated, NotDelivering;
      ForwardingLeaksNot(Housed(s, t).0, NotDelivering(s, WantedAddresses(s, listing)), TargetAddress(s, t));
    } else {
      hide Valid, NoLostMail, ReportsApplied;
      RefusedReportsChangeNothing(s, listing, t);
    }
  }

  lemma RemovingLeaksNot(s: State, t: State)
    requires NoLostMail(s)
    requires forall a :: a in t.aliases ==> a in s.aliases && t.aliases[a] == s.aliases[a]
    requires forall m :: m in t.mailboxes ==> m in s.mailboxes && t.mailboxes[m] == s.mailboxes[m]
    ensures NoLostMail(t)
  {
  }

  /**
   * "Aliases never deliver to a send-only mailbox" is not kept by every operation. It breaks exactly when a disabled alias is
   * turned back on, or a send-only mailbox is created where an active alias already points.
   */
  lemma MailIsLostOnlyThroughLeaks(s: State, op: Op)
    requires Valid(s) && Allowed(s, op) && NoLostMail(s)
    ensures NoLostMail(Step(s, op)) <==> !Leaks(s, op)
  {
    hide Valid, NoLostMail, DomainDeleted, CatchAllSet, MailboxCreated, MailboxUpdated, AliasCreated, AliasUpdated, ReportsApplied;
    match op
    case CreateMailbox(id, local, admin, receives) => CreatingLeaksIff(s, id, local, admin, receives);
    case UpdateAlias(id, target, activate) => UpdatingAliasLeaksIff(s, id, target, activate);
    case UpdateMailbox(id, update) => UpdatingMailboxLeaksNot(s, id, update);
    case SetCatchAll(id, target) => CatchAllLeaksNot(s, id, target);
    case CreateAlias(id, local, destination) => CreatingAliasLeaksNot(s, id, local, destination);
    case ApplyReports(listing, t) => ReportsLeakNot(s, listing, t);
    case DeleteDomain(id) => DomainDeletionRemoves(s, id); RemovingLeaksNot(s, Step(s, op));
    case _ => RemovingLeaksNot(s, Step(s, op));
  }

  lemma DomainDeletionRemoves(s: State, id: nat)
    ensures var t := DomainDeleted(s, id).0;
      && (forall a :: a in t.aliases ==> a in s.aliases && t.aliases[a] == s.aliases[a])
      && (forall m :: m in t.mailboxes ==> m in s.mailboxes && t.mailboxes[m] == s.mailboxes[m])
  {
  }
}
