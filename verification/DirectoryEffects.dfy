/** What the operations of the directory do when they are done, and exactly when they are refused, row by row. */
module DirectoryEffects {
  import opened Text
  import opened Directory
  import opened DirectoryLaws

  /** The rows of a table but one are as they were. */
  ghost predicate OthersKept<T(!new)>(before: map<nat, T>, after: map<nat, T>, but: nat) {
    forall k :: k != but ==> (k in after <==> k in before) && (k in before && k in after ==> after[k] == before[k])
  }

  /** Nobody else is an administrator who may sign in. */
  ghost predicate OnlyAdmin(s: State, id: nat) {
    && id in s.mailboxes && s.mailboxes[id].isAdmin && s.mailboxes[id].active
    && forall k :: k in s.mailboxes && s.mailboxes[k].isAdmin && s.mailboxes[k].active ==> k == id
  }

  lemma LastAdminIsOnly(s: State, id: nat)
    requires id in s.mailboxes
    ensures LastAdmin(s, id) <==> OnlyAdmin(s, id)
  {
    var others := ActiveAdmins(s) - {id};
    if OnlyAdmin(s, id) {
      assert others == {};
    }
    if LastAdmin(s, id) {
      assert others == {};
      forall k | k in s.mailboxes && s.mailboxes[k].isAdmin && s.mailboxes[k].active
        ensures k == id
      {
        assert k in ActiveAdmins(s) && k !in others;
      }
    }
  }

  // ---- mailboxes ------------------------------------------------------------------------------

  /** A mailbox is created with what was asked for, unless the domain is unknown or the address is a mailbox or an alias. */
  lemma CreatingAMailbox(s: State, id: nat, local: string, isAdmin: bool, receiveMail: bool)
    requires s.next !in s.mailboxes
    ensures var (after, r) := MailboxCreated(s, id, local, isAdmin, receiveMail);
      && (r == Refused(NotFound) <==> id !in s.domains)
      && (id in s.domains ==>
            var email := local + "@" + s.domains[id].name;
            && (r == Refused(Conflict) <==>
                  (exists m :: m in s.mailboxes && s.mailboxes[m].email == email)
                  || (exists a :: a in s.aliases && s.aliases[a].source == email))
            && (r == Done ==>
                  && s.next in after.mailboxes && after.mailboxes[s.next] == Mailbox(id, email, isAdmin, true, receiveMail)
                  && OthersKept(s.mailboxes, after.mailboxes, s.next)))
      && after.domains == s.domains && after.aliases == s.aliases && (r == Done || after == s)
      && (r == Done || r == Refused(NotFound) || r == Refused(Conflict))
  {
    if id in s.domains {
      var email := AddressAt(local, s.domains[id].name);
      if m :| m in s.mailboxes && s.mailboxes[m].email == email {
        assert m in Holders(s, email);
      }
      if a :| a in s.aliases && s.aliases[a].source == email {
        assert a in AliasesFrom(s, email);
      }
      if Holders(s, email) != {} {
        var m :| m in Holders(s, email);
      }
      if AliasesFrom(s, email) != {} {
        var a :| a in AliasesFrom(s, email);
      }
    }
  }

  /**
   * An update gives the mailbox what the request names and leaves the rest, and the other mailboxes, as they were. It is
   * refused when it would take the only administrator away or stop an active alias's target from receiving.
   */
  lemma UpdatingAMailbox(s: State, id: nat, u: MailboxUpdate)
    ensures var (after, r) := MailboxUpdated(s, id, u);
      && (r == Refused(NotFound) <==> id !in s.mailboxes)
      && (id in s.mailboxes ==>
            var m := s.mailboxes[id];
            && (r == Refused(BadRequest) <==>
                  || ((u.isAdmin == Some(false) || u.active == Some(false)) && OnlyAdmin(s, id))
                  || (u.receiveMail == Some(false) && m.receiveMail
                      && exists a :: a in s.aliases && s.aliases[a].destination == m.email && s.aliases[a].active))
            && (r == Done ==>
                  && id in after.mailboxes && OthersKept(s.mailboxes, after.mailboxes, id)
                  && var n := after.mailboxes[id];
                     && n.domainId == m.domainId && n.email == m.email
                     && (u.isAdmin.Some? ==> n.isAdmin == u.isAdmin.value) && (u.isAdmin.None? ==> n.isAdmin == m.isAdmin)
                     && (u.active.Some? ==> n.active == u.active.value) && (u.active.None? ==> n.active == m.active)
                     && (u.receiveMail.Some? ==> n.receiveMail == u.receiveMail.value)
                     && (u.receiveMail.None? ==> n.receiveMail == m.receiveMail)))
      && after.domains == s.domains && after.aliases == s.aliases && (r == Done || after == s)
      && (r == Done || r == Refused(NotFound) || r == Refused(BadRequest))
  {
    if id in s.mailboxes {
      LastAdminIsOnly(s, id);
      var email := s.mailboxes[id].email;
      if a :| a in s.aliases && s.aliases[a].destination == email && s.aliases[a].active {
        assert a in ActiveAliasesTo(s, email);
      }
      if ActiveAliasesTo(s, email) != {} {
        var a :| a in ActiveAliasesTo(s, email);
      }
      hide LastAdmin, OnlyAdmin, ActiveAliasesTo;
    }
  }

  /** A mailbox is gone once deleted, and no other; only the only administrator cannot be. */
  lemma DeletingAMailbox(s: State, id: nat)
    ensures var (after, r) := MailboxDeleted(s, id);
      && (r == Refused(NotFound) <==> id !in s.mailboxes) && (r == Refused(BadRequest) <==> OnlyAdmin(s, id))
      && (r == Done ==> id !in after.mailboxes && OthersKept(s.mailboxes, after.mailboxes, id))
      && after.domains == s.domains && after.aliases == s.aliases && (r == Done || after == s)
      && (r == Done || r == Refused(NotFound) || r == Refused(BadRequest))
  {
    if id in s.mailboxes {
      LastAdminIsOnly(s, id);
    }
  }

  // ---- domains --------------------------------------------------------------------------------

  /** A domain is created active under its name unless one has the name; switching it changes that and nothing else. */
  lemma CreatingAndSwitchingADomain(s: State, name: string, id: nat, active: bool)
    requires s.next !in s.domains
    ensures var (after, r) := DomainCreated(s, name);
      && (r == Refused(Conflict) <==> exists d :: d in s.domains && s.domains[d].name == name)
      && (r == Done ==> s.next in after.domains && after.domains[s.next] == Domain(name, true)
                        && OthersKept(s.domains, after.domains, s.next))
      && after.mailboxes == s.mailboxes && after.aliases == s.aliases && (r == Done || (r == Refused(Conflict) && after == s))
    ensures var (after, r) := DomainSwitched(s, id, active);
      && (r == Done <==> id in s.domains) && (r == Done || after == s)
      && (r == Done ==> id in after.domains && after.domains[id] == Domain(s.domains[id].name, active)
                        && OthersKept(s.domains, after.domains, id))
      && after.mailboxes == s.mailboxes && after.aliases == s.aliases
  {
    if d :| d in s.domains && s.domains[d].name == name {
      assert d in NamedDomains(s, name);
    }
    if NamedDomains(s, name) != {} {
      var d :| d in NamedDomains(s, name);
    }
  }

  /** A domain goes with its mailboxes and aliases and nothing else; it stays if only there administrators may sign in. */
  lemma DeletingADomain(s: State, id: nat)
    ensures var (after, r) := DomainDeleted(s, id);
      && (r == Refused(NotFound) <==> id !in s.domains)
      && (id in s.domains ==>
            (r == Refused(BadRequest) <==>
               && (exists m :: m in s.mailboxes && s.mailboxes[m].isAdmin && s.mailboxes[m].active)
               && forall m :: m in s.mailboxes && s.mailboxes[m].isAdmin && s.mailboxes[m].active ==> s.mailboxes[m].domainId == id))
      && (r == Done ==>
            && id !in after.domains && OthersKept(s.domains, after.domains, id)
            && (forall m :: m in after.mailboxes <==> m in s.mailboxes && s.mailboxes[m].domainId != id)
            && (forall m :: m in after.mailboxes ==> after.mailboxes[m] == s.mailboxes[m])
            && (forall a :: a in after.aliases <==> a in s.aliases && s.aliases[a].domainId != id)
            && (forall a :: a in after.aliases ==> after.aliases[a] == s.aliases[a]))
      && (r == Done || (after == s && (r == Refused(NotFound) || r == Refused(BadRequest))))
  {
    AllAdminsHere(s, id);
  }

  lemma AllAdminsHere(s: State, id: nat)
    ensures |ActiveAdminsOf(s, id)| > 0 && |ActiveAdmins(s)| - |ActiveAdminsOf(s, id)| <= 0 <==>
      && (exists m :: m in s.mailboxes && s.mailboxes[m].isAdmin && s.mailboxes[m].active)
      && forall m :: m in s.mailboxes && s.mailboxes[m].isAdmin && s.mailboxes[m].active ==> s.mailboxes[m].domainId == id
  {
    var all, here := ActiveAdmins(s), ActiveAdminsOf(s, id);
    assert here <= all && |all| == |here| + |all - here| by {
      assert all == here + (all - here);
    }
    if |here| > 0 && |all| - |here| <= 0 {
      var m :| m in here;
      assert all - here == {};
      forall k | k in s.mailboxes && s.mailboxes[k].isAdmin && s.mailboxes[k].active
        ensures s.mailboxes[k].domainId == id
      {
        assert k in all && k !in all - here;
      }
    }
    if forall m :: m in s.mailboxes && s.mailboxes[m].isAdmin && s.mailboxes[m].active ==> s.mailboxes[m].domainId == id {
      assert all == here;
      if m :| m in s.mailboxes && s.mailboxes[m].isAdmin && s.mailboxes[m].active {
        assert m in here;
      }
    }
  }

  // ---- aliases --------------------------------------------------------------------------------

  /** Some mailbox with this address takes no mail. */
  ghost predicate TakesNoMail(s: State, email: string) {
    exists m :: m in s.mailboxes && s.mailboxes[m].email == email && !s.mailboxes[m].receiveMail
  }

  lemma SendOnlyIff(s: State, email: string)
    ensures SendOnly(s, email) <==> TakesNoMail(s, email)
  {
  }

  /**
   * An alias is created with what was asked for, unless its source is a mailbox's address, or its own target, or already an
   * alias to that target, or the target takes no mail.
   */
  lemma CreatingAnAlias(s: State, id: nat, local: string, destination: string)
    requires s.next !in s.aliases
    ensures var (after, r) := AliasCreated(s, id, local, destination);
      && (r == Refused(NotFound) <==> id !in s.domains)
      && (id in s.domains ==>
            var source := local + "@" + s.domains[id].name;
            && (r != Done <==>
                  || (local != "" && exists m :: m in s.mailboxes && s.mailboxes[m].email == source)
                  || source == destination || TakesNoMail(s, destination)
                  || (exists a :: a in s.aliases && s.aliases[a].source == source && s.aliases[a].destination == destination))
            && (r == Done ==>
                  && s.next in after.aliases && after.aliases[s.next] == Alias(id, source, destination, true)
                  && OthersKept(s.aliases, after.aliases, s.next)))
      && after.domains == s.domains && after.mailboxes == s.mailboxes && (r == Done || after == s)
  {
    SendOnlyIff(s, destination);
    hide SendOnly;
    if id in s.domains {
      var source := AddressAt(local, s.domains[id].name);
      if m :| m in s.mailboxes && s.mailboxes[m].email == source {
        assert m in Holders(s, source);
      }
      if Holders(s, source) != {} {
        var m :| m in Holders(s, source);
      }
      if a :| a in s.aliases && s.aliases[a].source == source && s.aliases[a].destination == destination {
        assert a in AliasesFromTo(s, source, destination);
      }
      if AliasesFromTo(s, source, destination) != {} {
        var a :| a in AliasesFromTo(s, source, destination);
      }
    }
  }

  /**
   * An update gives the alias what the request names and leaves the rest, and the other aliases, as they were. It is refused
   * when the new target takes no mail or another alias already has this source and target.
   */
  lemma UpdatingAnAlias(s: State, id: nat, destination: Option<string>, active: Option<bool>)
    ensures var (after, r) := AliasUpdated(s, id, destination, active);
      && (r == Refused(NotFound) <==> id !in s.aliases)
      && (id in s.aliases ==>
            var a := s.aliases[id];
            var to := if destination.Some? then destination.value else a.destination;
            && (r != Done <==>
                  || (to != a.destination && TakesNoMail(s, to))
                  || exists b :: b in s.aliases && b != id && s.aliases[b].source == a.source && s.aliases[b].destination == to)
            && (r == Done ==>
                  && id in after.aliases && OthersKept(s.aliases, after.aliases, id)
                  && after.aliases[id] == Alias(a.domainId, a.source, to, if active.Some? then active.value else a.active)))
      && after.domains == s.domains && after.mailboxes == s.mailboxes && (r == Done || after == s)
  {
    if id in s.aliases {
      var a := s.aliases[id];
      var to := if destination.Some? then destination.value else a.destination;
      SendOnlyIff(s, to);
      hide SendOnly, TakesNoMail;
      var others := AliasesFromTo(s, a.source, to) - {id};
      if b :| b in s.aliases && b != id && s.aliases[b].source == a.source && s.aliases[b].destination == to {
        assert b in others;
      }
      if others != {} {
        var b :| b in others;
      }
    }
  }

  /** A deleted alias is gone, and no other. */
  lemma DeletingAnAlias(s: State, id: nat)
    ensures var (after, r) := AliasDeleted(s, id);
      && (r == Done <==> id in s.aliases) && (r == Done || (r == Refused(NotFound) && after == s))
      && (r == Done ==> id !in after.aliases && OthersKept(s.aliases, after.aliases, id))
      && after.domains == s.domains && after.mailboxes == s.mailboxes
  {
  }

  /** The catch-all of the domain is what was asked for, or none, and no other alias is touched; a target that takes no mail is refused. */
  lemma SettingTheCatchAll(s: State, id: nat, destination: Option<string>)
    requires s.next !in s.aliases
    ensures var (after, r) := CatchAllSet(s, id, destination);
      && (r == Refused(NotFound) <==> id !in s.domains)
      && (id in s.domains ==>
            var source := "@" + s.domains[id].name;
            && (r == Refused(BadRequest) <==> destination.Some? && TakesNoMail(s, destination.value))
            && (r == Done ==>
                  && (forall a :: a in s.aliases && !(s.aliases[a].domainId == id && s.aliases[a].source == source) ==>
                        a in after.aliases && after.aliases[a] == s.aliases[a])
                  && (forall a :: a in after.aliases && after.aliases[a].domainId == id && after.aliases[a].source == source ==>
                        destination.Some? && after.aliases[a] == Alias(id, source, destination.value, true))
                  && (destination.Some? ==> s.next in after.aliases && after.aliases[s.next] == Alias(id, source, destination.value, true))
                  && (forall a :: a in after.aliases && a !in s.aliases ==> a == s.next && destination.Some?)))
      && after.domains == s.domains && after.mailboxes == s.mailboxes && (r == Done || after == s)
      && (r == Done || r == Refused(NotFound) || r == Refused(BadRequest))
  {
    if destination.Some? {
      SendOnlyIff(s, destination.value);
    }
    hide SendOnly;
    if id in s.domains {
      assert AddressAt("", s.domains[id].name) == "@" + s.domains[id].name;
    }
  }

  // ---- report addresses -----------------------------------------------------------------------

  ghost predicate IsMailbox(s: State, address: string) {
    exists m :: m in s.mailboxes && s.mailboxes[m].email == address
  }

  /** A mailbox of this address takes mail. */
  ghost predicate Receives(s: State, address: string) {
    exists m :: m in s.mailboxes && s.mailboxes[m].email == address && s.mailboxes[m].active && s.mailboxes[m].receiveMail
  }

  ghost predicate IsForwarded(s: State, address: string) {
    exists a :: a in s.aliases && s.aliases[a].source == address && s.aliases[a].active
  }

  ghost predicate IsReportAddress(s: State, address: string) {
    exists id :: id in s.domains && s.domains[id].active
              && (address == "dmarc@" + s.domains[id].name || address == "tlsrpt@" + s.domains[id].name)
  }

  lemma ReportStateIs(s: State, address: string)
    ensures ReportStateOf(s, address) == Delivers <==> Receives(s, address) || (!IsMailbox(s, address) && IsForwarded(s, address))
    ensures ReportStateOf(s, address) == Blocked <==> IsMailbox(s, address) && !Receives(s, address)
    ensures Deliverable(s, address) <==> Receives(s, address) || IsForwarded(s, address)
  {
    if m :| m in s.mailboxes && s.mailboxes[m].email == address {
      assert m in Holders(s, address);
    }
    if Holders(s, address) != {} {
      var m :| m in Holders(s, address);
    }
  }

  lemma WantedIs(s: State, listing: seq<nat>, address: string)
    requires IsListing(s, listing)
    ensures (exists w :: w in WantedAddresses(s, listing) && w.address == address) <==> IsReportAddress(s, address)
  {
    if w :| w in WantedAddresses(s, listing) && w.address == address {
      WantedIff(s, listing, w);
      assert AddressAt("dmarc", s.domains[w.domainId].name) == "dmarc" + "@" + s.domains[w.domainId].name;
      assert AddressAt("tlsrpt", s.domains[w.domainId].name) == "tlsrpt" + "@" + s.domains[w.domainId].name;
      assert address == "dmarc@" + s.domains[w.domainId].name || address == "tlsrpt@" + s.domains[w.domainId].name;
    }
    if IsReportAddress(s, address) {
      var id :| id in s.domains && s.domains[id].active && (address == "dmarc@" + s.domains[id].name || address == "tlsrpt@" + s.domains[id].name);
      var w := Wanted(id, address);
      assert AddressAt("dmarc", s.domains[id].name) == "dmarc@" + s.domains[id].name;
      assert AddressAt("tlsrpt", s.domains[id].name) == "tlsrpt@" + s.domains[id].name;
      assert w in WantedOf(id, s.domains[id].name);
      WantedIff(s, listing, w);
    }
  }

  lemma MissingIs(s: State, listing: seq<nat>, address: string)
    requires IsListing(s, listing)
    ensures (exists w :: w in NotDelivering(s, WantedAddresses(s, listing)) && w.address == address)
       <==> IsReportAddress(s, address) && ReportStateOf(s, address) != Delivers
  {
    WantedIs(s, listing, address);
    hide IsReportAddress, WantedAddresses, ReportStateOf;
  }

  /** The mailbox for the reports cannot be made: its domain is unknown, or the address is taken. */
  ghost predicate CannotHouse(s: State, domainId: nat, local: string) {
    domainId !in s.domains
    || IsMailbox(s, local + "@" + s.domains[domainId].name)
    || exists a :: a in s.aliases && s.aliases[a].source == local + "@" + s.domains[domainId].name
  }

  /** The target does not do: it is itself a report address that does not deliver, or a local address that takes no mail. */
  ghost predicate CannotForward(s: State, destination: string) {
    || (IsReportAddress(s, destination) && !Receives(s, destination) && (IsMailbox(s, destination) || !IsForwarded(s, destination)))
    || ((exists id :: id in s.domains && s.domains[id].name == DomainPart(destination))
        && !Receives(s, destination) && !IsForwarded(s, destination))
  }

  /**
   * Making the report addresses deliver is refused exactly when one of them is a mailbox that takes no mail, or the mailbox
   * wanted for them cannot be made, or the target wanted for them does not do.
   */
  lemma ReportsAreRefusedIff(s: State, listing: seq<nat>, t: Target)
    requires IsListing(s, listing) && s.next !in s.mailboxes
    ensures ReportsApplied(s, listing, t).2 != Done <==>
      || (exists address :: IsReportAddress(s, address) && IsMailbox(s, address) && !Receives(s, address))
      || (t.NewMailbox? && CannotHouse(s, t.domainId, t.local))
      || (t.Forward? && CannotForward(s, t.destination))
  {
    BlockedIff(s, listing);
    if t.NewMailbox? {
      HousingIff(s, t.domainId, t.local);
    } else {
      MissingIs(s, listing, t.destination);
      ReportStateIs(s, t.destination);
      NamedIff(s, DomainPart(t.destination));
    }
    hide NotDelivering, WantedAddresses, ReportStateOf, Deliverable, DomainPart, AllForwarded, MailboxCreated, NamedDomains, CannotHouse;
  }

  lemma NamedIff(s: State, name: string)
    ensures NamedDomains(s, name) != {} <==> exists id :: id in s.domains && s.domains[id].name == name
  {
    if id :| id in s.domains && s.domains[id].name == name {
      assert id in NamedDomains(s, name);
    }
    if NamedDomains(s, name) != {} {
      var id :| id in NamedDomains(s, name);
    }
  }

  lemma HousingIff(s: State, id: nat, local: string)
    requires s.next !in s.mailboxes
    ensures MailboxCreated(s, id, local, false, true).1 != Done <==> CannotHouse(s, id, local)
  {
    CreatingAMailbox(s, id, local, false, true);
    hide MailboxCreated;
  }

  lemma BlockedIff(s: State, listing: seq<nat>)
    requires IsListing(s, listing)
    ensures (exists w :: w in NotDelivering(s, WantedAddresses(s, listing)) && ReportStateOf(s, w.address) == Blocked)
       <==> exists address :: IsReportAddress(s, address) && IsMailbox(s, address) && !Receives(s, address)
  {
    hide NotDelivering, WantedAddresses, ReportStateOf, IsReportAddress, IsMailbox, Receives;
    if w :| w in NotDelivering(s, WantedAddresses(s, listing)) && ReportStateOf(s, w.address) == Blocked {
      MissingIs(s, listing, w.address);
      ReportStateIs(s, w.address);
    }
    if address :| IsReportAddress(s, address) && IsMailbox(s, address) && !Receives(s, address) {
      ReportStateIs(s, address);
      MissingIs(s, listing, address);
    }
  }
}
