/** The directory of domains, mailboxes and aliases, and the operations administrators change it with. */
module Directory {
  import opened Text

  datatype Domain = Domain(name: string, active: bool)
  datatype Mailbox = Mailbox(domainId: nat, email: string, isAdmin: bool, active: bool, receiveMail: bool)
  datatype Alias = Alias(domainId: nat, source: string, destination: string, active: bool)

  /** The three tables by row id, and the next id not used yet. */
  datatype State = State(domains: map<nat, Domain>, mailboxes: map<nat, Mailbox>, aliases: map<nat, Alias>, next: nat)

  const EMPTY := State(map[], map[], map[], 0)

  datatype Reason = Conflict | BadRequest | NotFound
  datatype Outcome = Done | Refused(reason: Reason)

  predicate Contains(s: string, c: char) {
    exists i :: 0 <= i < |s| && s[i] == c
  }

  /** A name the request schemas let through. */
  predicate PlainName(s: string) {
    s != "" && !Contains(s, '@')
  }

  function AddressAt(local: string, domain: string): string {
    local + "@" + domain
  }

  /** The part behind the last "@", or everything. */
  function DomainPart(address: string): string {
    if !Contains(address, '@') then address else DomainPart(address[1..])
  }

  // ---- queries ----------------------------------------------------------------------------

  function NamedDomains(s: State, name: string): set<nat> {
    set id | id in s.domains && s.domains[id].name == name
  }

  function Holders(s: State, email: string): set<nat> {
    set id | id in s.mailboxes && s.mailboxes[id].email == email
  }

  function AliasesFrom(s: State, source: string): set<nat> {
    set id | id in s.aliases && s.aliases[id].source == source
  }

  function AliasesFromTo(s: State, source: string, destination: string): set<nat> {
    set id | id in s.aliases && s.aliases[id].source == source && s.aliases[id].destination == destination
  }

  function ActiveAliasesTo(s: State, destination: string): set<nat> {
    set id | id in s.aliases && s.aliases[id].destination == destination && s.aliases[id].active
  }

  function ActiveAdmins(s: State): set<nat> {
    set id | id in s.mailboxes && s.mailboxes[id].isAdmin && s.mailboxes[id].active
  }

  function ActiveAdminsOf(s: State, domainId: nat): set<nat> {
    set id | id in ActiveAdmins(s) && s.mailboxes[id].domainId == domainId
  }

  predicate SendOnly(s: State, email: string) {
    exists id :: id in Holders(s, email) && !s.mailboxes[id].receiveMail
  }

  predicate LastAdmin(s: State, id: nat)
    requires id in s.mailboxes
  {
    s.mailboxes[id].isAdmin && s.mailboxes[id].active && |ActiveAdmins(s) - {id}| == 0
  }

  // ---- operations on the tables -------------------------------------------------------------

  function AddMailbox(s: State, m: Mailbox): State {
    s.(mailboxes := s.mailboxes[s.next := m], next := s.next + 1)
  }

  function AddAlias(s: State, a: Alias): State {
    s.(aliases := s.aliases[s.next := a], next := s.next + 1)
  }

  function DomainCreated(s: State, name: string): (State, Outcome) {
    if NamedDomains(s, name) != {} then (s, Refused(Conflict))
    else (s.(domains := s.domains[s.next := Domain(name, true)], next := s.next + 1), Done)
  }

  function DomainSwitched(s: State, id: nat, active: bool): (State, Outcome) {
    if id !in s.domains then (s, Refused(NotFound))
    else (s.(domains := s.domains[id := s.domains[id].(active := active)]), Done)
  }

  /** Mailboxes and aliases go with their domain. */
  function DomainDeleted(s: State, id: nat): (State, Outcome) {
    if id !in s.domains then (s, Refused(NotFound))
    else
      var here := ActiveAdminsOf(s, id);
      if |here| > 0 && |ActiveAdmins(s)| - |here| <= 0 then (s, Refused(BadRequest))
      else
        (s.(domains := s.domains - {id},
            mailboxes := map m | m in s.mailboxes && s.mailboxes[m].domainId != id :: s.mailboxes[m],
            aliases := map a | a in s.aliases && s.aliases[a].domainId != id :: s.aliases[a]),
         Done)
  }

  function CatchAllSet(s: State, id: nat, destination: Option<string>): (State, Outcome) {
    if id !in s.domains then (s, Refused(NotFound))
    else
      var source := AddressAt("", s.domains[id].name);
      if destination.Some? && SendOnly(s, destination.value) then (s, Refused(BadRequest))
      else
        var cleared := s.(aliases := map a | a in s.aliases && !(s.aliases[a].domainId == id && s.aliases[a].source == source) :: s.aliases[a]);
        if destination.None? then (cleared, Done)
        else (AddAlias(cleared, Alias(id, source, destination.value, true)), Done)
  }

  function MailboxCreated(s: State, id: nat, local: string, isAdmin: bool, receiveMail: bool): (State, Outcome) {
    if id !in s.domains then (s, Refused(NotFound))
    else
      var email := AddressAt(local, s.domains[id].name);
      if Holders(s, email) != {} || AliasesFrom(s, email) != {} then (s, Refused(Conflict))
      else (AddMailbox(s, Mailbox(id, email, isAdmin, true, receiveMail)), Done)
  }

  /** The fields an update request names. */
  datatype MailboxUpdate = MailboxUpdate(isAdmin: Option<bool>, active: Option<bool>, receiveMail: Option<bool>)

  function Or<T>(choice: Option<T>, current: T): T {
    if choice.Some? then choice.value else current
  }

  function MailboxUpdated(s: State, id: nat, u: MailboxUpdate): (State, Outcome) {
    if id !in s.mailboxes then (s, Refused(NotFound))
    else
      var m := s.mailboxes[id];
      if (u.isAdmin == Some(false) || u.active == Some(false)) && LastAdmin(s, id) then (s, Refused(BadRequest))
      else if u.receiveMail == Some(false) && m.receiveMail && ActiveAliasesTo(s, m.email) != {} then (s, Refused(BadRequest))
      else
        (s.(mailboxes := s.mailboxes[id := m.(isAdmin := Or(u.isAdmin, m.isAdmin), active := Or(u.active, m.active),
                                              receiveMail := Or(u.receiveMail, m.receiveMail))]),
         Done)
  }

  function MailboxDeleted(s: State, id: nat): (State, Outcome) {
    if id !in s.mailboxes then (s, Refused(NotFound))
    else if LastAdmin(s, id) then (s, Refused(BadRequest))
    else (s.(mailboxes := s.mailboxes - {id}), Done)
  }

  function AliasCreated(s: State, id: nat, local: string, destination: string): (State, Outcome) {
    if id !in s.domains then (s, Refused(NotFound))
    else
      var source := AddressAt(local, s.domains[id].name);
      if local != "" && Holders(s, source) != {} then (s, Refused(Conflict))
      else if source == destination then (s, Refused(BadRequest))
      else if AliasesFromTo(s, source, destination) != {} then (s, Refused(Conflict))
      else if SendOnly(s, destination) then (s, Refused(BadRequest))
      else (AddAlias(s, Alias(id, source, destination, true)), Done)
  }

  function AliasUpdated(s: State, id: nat, destination: Option<string>, active: Option<bool>): (State, Outcome) {
    if id !in s.aliases then (s, Refused(NotFound))
    else
      var a := s.aliases[id];
      if destination.Some? && destination.value != a.destination && SendOnly(s, destination.value) then (s, Refused(BadRequest))
      else
        var b := a.(destination := Or(destination, a.destination), active := Or(active, a.active));
        if AliasesFromTo(s, b.source, b.destination) - {id} != {} then (s, Refused(Conflict)) // the unique index
        else (s.(aliases := s.aliases[id := b]), Done)
  }

  function AliasDeleted(s: State, id: nat): (State, Outcome) {
    if id !in s.aliases then (s, Refused(NotFound)) else (s.(aliases := s.aliases - {id}), Done)
  }

  // ---- report addresses -----------------------------------------------------------------------

  const REPORT_LOCAL_PARTS: seq<string> := ["dmarc", "tlsrpt"]

  datatype Wanted = Wanted(domainId: nat, address: string)
  datatype ReportState = Delivers | Blocked | Missing

  /** The active domains in some order; which one does not matter to what is proved. */
  predicate IsListing(s: State, listing: seq<nat>) {
    && (forall i :: 0 <= i < |listing| ==> listing[i] in s.domains && s.domains[listing[i]].active)
    && (forall id :: id in s.domains && s.domains[id].active ==> id in listing)
  }

  function WantedOf(domainId: nat, name: string): seq<Wanted> {
    [Wanted(domainId, AddressAt(REPORT_LOCAL_PARTS[0], name)), Wanted(domainId, AddressAt(REPORT_LOCAL_PARTS[1], name))]
  }

  function WantedAddresses(s: State, listing: seq<nat>): seq<Wanted>
    requires forall i :: 0 <= i < |listing| ==> listing[i] in s.domains
  {
    if listing == [] then []
    else WantedOf(listing[0], s.domains[listing[0]].name) + WantedAddresses(s, listing[1..])
  }

  function ReportStateOf(s: State, address: string): ReportState {
    var holders := Holders(s, address);
    if exists m :: m in holders && s.mailboxes[m].active && s.mailboxes[m].receiveMail then Delivers
    else if holders != {} then Blocked
    else if exists a :: a in AliasesFrom(s, address) && s.aliases[a].active then Delivers
    else Missing
  }

  /** Whether mail to a local address would be accepted. */
  predicate Deliverable(s: State, address: string) {
    || (exists m :: m in Holders(s, address) && s.mailboxes[m].active && s.mailboxes[m].receiveMail)
    || (exists a :: a in AliasesFrom(s, address) && s.aliases[a].active)
  }

  function NotDelivering(s: State, wanted: seq<Wanted>): (r: seq<Wanted>)
    ensures forall w :: w in r <==> w in wanted && ReportStateOf(s, w.address) != Delivers
  {
    if wanted == [] then []
    else (if ReportStateOf(s, wanted[0].address) == Delivers then [] else [wanted[0]]) + NotDelivering(s, wanted[1..])
  }

  /** Where the reports are to go: an address there is, or a new mailbox. */
  datatype Target = Forward(destination: string) | NewMailbox(domainId: nat, local: string)

  function TargetAddress(s: State, t: Target): string
    requires t.NewMailbox? ==> t.domainId in s.domains
  {
    match t
    case Forward(destination) => destination
    case NewMailbox(id, local) => AddressAt(local, s.domains[id].name)
  }

  /** Turns a disabled alias back on, or adds the alias. */
  function Forwarded(s: State, w: Wanted, destination: string): State {
    var existing := AliasesFromTo(s, w.address, destination);
    if existing != {} then
      s.(aliases := map a | a in s.aliases :: if a in existing then s.aliases[a].(active := true) else s.aliases[a])
    else AddAlias(s, Alias(w.domainId, w.address, destination, true))
  }

  function AllForwarded(s: State, missing: seq<Wanted>, destination: string): (r: (State, seq<string>))
    ensures forall address :: address in r.1 ==> exists w :: w in missing && w.address == address
  {
    if missing == [] then (s, [])
    else
      var last := missing[|missing| - 1];
      var before := AllForwarded(s, missing[..|missing| - 1], destination);
      if last.address == destination then before // the new mailbox itself
      else (Forwarded(before.0, last, destination), before.1 + [last.address])
  }

  function ReportsApplied(s: State, listing: seq<nat>, t: Target): (State, seq<string>, Outcome)
    requires IsListing(s, listing)
  {
    var missing := NotDelivering(s, WantedAddresses(s, listing));
    if exists w :: w in missing && ReportStateOf(s, w.address) == Blocked then (s, [], Refused(BadRequest))
    else if t.NewMailbox? && t.domainId !in s.domains then (s, [], Refused(NotFound))
    else
      var destination := TargetAddress(s, t);
      if t.Forward? && exists w :: w in missing && w.address == destination then (s, [], Refused(BadRequest))
      else if t.Forward? && NamedDomains(s, DomainPart(destination)) != {} && !Deliverable(s, destination) then
        (s, [], Refused(BadRequest))
      else
        var housed := if t.NewMailbox? then MailboxCreated(s, t.domainId, t.local, false, true) else (s, Done);
        if housed.1 != Done then (s, [], housed.1) // the transaction is rolled back
        else
          var result := AllForwarded(housed.0, missing, destination);
          (result.0, result.1, Done)
  }

  // ---- the operations in place ----------------------------------------------------------------

  class Service {
    var domains: map<nat, Domain>
    var mailboxes: map<nat, Mailbox>
    var aliases: map<nat, Alias>
    var next: nat

    function View(): State
      reads this
    {
      State(domains, mailboxes, aliases, next)
    }

    constructor ()
      ensures View() == EMPTY
    {
      domains, mailboxes, aliases, next := map[], map[], map[], 0;
    }

    method CreateMailbox(id: nat, local: string, isAdmin: bool, receiveMail: bool) returns (r: Outcome)
      modifies this`mailboxes, this`next
      ensures (View(), r) == MailboxCreated(old(View()), id, local, isAdmin, receiveMail)
    {
      if id !in domains {
        return Refused(NotFound);
      }
      var email := AddressAt(local, domains[id].name);
      if Holders(View(), email) != {} || AliasesFrom(View(), email) != {} {
        return Refused(Conflict);
      }
      mailboxes := mailboxes[next := Mailbox(id, email, isAdmin, true, receiveMail)];
      next := next + 1;
      return Done;
    }

    method UpdateMailbox(id: nat, u: MailboxUpdate) returns (r: Outcome)
      modifies this`mailboxes
      ensures (View(), r) == MailboxUpdated(old(View()), id, u)
    {
      if id !in mailboxes {
        return Refused(NotFound);
      }
      var m := mailboxes[id];
      if u.isAdmin == Some(false) || u.active == Some(false) {
        if LastAdmin(View(), id) {
          return Refused(BadRequest);
        }
      }
      if u.receiveMail == Some(false) && m.receiveMail && ActiveAliasesTo(View(), m.email) != {} {
        return Refused(BadRequest);
      }
      if u.isAdmin.Some? { m := m.(isAdmin := u.isAdmin.value); }
      if u.active.Some? { m := m.(active := u.active.value); }
      if u.receiveMail.Some? { m := m.(receiveMail := u.receiveMail.value); }
      mailboxes := mailboxes[id := m];
      return Done;
    }

    method DeleteMailbox(id: nat) returns (r: Outcome)
      modifies this`mailboxes
      ensures (View(), r) == MailboxDeleted(old(View()), id)
    {
      if id !in mailboxes {
        return Refused(NotFound);
      }
      if LastAdmin(View(), id) {
        return Refused(BadRequest);
      }
      mailboxes := mailboxes - {id};
      return Done;
    }

    method DeleteDomain(id: nat) returns (r: Outcome)
      modifies this`domains, this`mailboxes, this`aliases
      ensures (View(), r) == DomainDeleted(old(View()), id)
    {
      if id !in domains {
        return Refused(NotFound);
      }
      var admins, adminsHere := |ActiveAdmins(View())|, |ActiveAdminsOf(View(), id)|;
      if adminsHere > 0 && admins - adminsHere <= 0 {
        return Refused(BadRequest);
      }
      domains := domains - {id};
      mailboxes := map m | m in mailboxes && mailboxes[m].domainId != id :: mailboxes[m];
      aliases := map a | a in aliases && aliases[a].domainId != id :: aliases[a];
      return Done;
    }

    method SetCatchAll(id: nat, destination: Option<string>) returns (r: Outcome)
      modifies this`aliases, this`next
      ensures (View(), r) == CatchAllSet(old(View()), id, destination)
    {
      if id !in domains {
        return Refused(NotFound);
      }
      var source := AddressAt("", domains[id].name);
      if destination.Some? && SendOnly(View(), destination.value) {
        return Refused(BadRequest);
      }
      aliases := map a | a in aliases && !(aliases[a].domainId == id && aliases[a].source == source) :: aliases[a];
      if destination.Some? {
        aliases := aliases[next := Alias(id, source, destination.value, true)];
        next := next + 1;
      }
      return Done;
    }

    method CreateAlias(id: nat, local: string, destination: string) returns (r: Outcome)
      modifies this`aliases, this`next
      ensures (View(), r) == AliasCreated(old(View()), id, local, destination)
    {
      if id !in domains {
        return Refused(NotFound);
      }
      var source := AddressAt(local, domains[id].name);
      if local != "" && Holders(View(), source) != {} {
        return Refused(Conflict);
      }
      if source == destination {
        return Refused(BadRequest);
      }
      if AliasesFromTo(View(), source, destination) != {} {
        return Refused(Conflict);
      }
      if SendOnly(View(), destination) {
        return Refused(BadRequest);
      }
      aliases := aliases[next := Alias(id, source, destination, true)];
      next := next + 1;
      return Done;
    }

    /** Makes every missing report address deliver. */
    method ApplyReportAddresses(listing: seq<nat>, t: Target) returns (addresses: seq<string>, r: Outcome)
      requires IsListing(View(), listing)
      modifies this`mailboxes, this`aliases, this`next
      ensures (View(), addresses, r) == ReportsApplied(old(View()), listing, t)
    {
      hide ReportStateOf, DomainPart, Deliverable, WantedAddresses, AllForwarded;
      var missing := NotDelivering(View(), WantedAddresses(View(), listing));
      if exists w :: w in missing && ReportStateOf(View(), w.address) == Blocked {
        return [], Refused(BadRequest);
      }
      if t.NewMailbox? && t.domainId !in domains {
        return [], Refused(NotFound);
      }
      var destination := TargetAddress(View(), t);
      if t.Forward? {
        if exists w :: w in missing && w.address == destination {
          return [], Refused(BadRequest);
        }
        if NamedDomains(View(), DomainPart(destination)) != {} && !Deliverable(View(), destination) {
          return [], Refused(BadRequest);
        }
      } else {
        r := CreateMailbox(t.domainId, t.local, false, true);
        if r != Done {
          return [], r;
        }
      }
      addresses := ForwardAll(missing, destination);
      return addresses, Done;
    }

    method ForwardAll(missing: seq<Wanted>, destination: string) returns (addresses: seq<string>)
      modifies this`aliases, this`next
      ensures (View(), addresses) == AllForwarded(old(View()), missing, destination)
    {
      addresses := [];
      ghost var start := View();
      var i := 0;
      while i < |missing|
        invariant 0 <= i <= |missing|
        invariant (View(), addresses) == AllForwarded(start, missing[..i], destination)
      {
        var w := missing[i];
        assert missing[..i + 1][..i] == missing[..i];
        if w.address != destination {
          var existing := AliasesFromTo(View(), w.address, destination);
          if existing != {} {
            aliases := map a | a in aliases :: if a in existing then aliases[a].(active := true) else aliases[a];
          } else {
            aliases := aliases[next := Alias(w.domainId, w.address, destination, true)];
            next := next + 1;
          }
          addresses := addresses + [w.address];
        }
        i := i + 1;
      }
      assert missing[..i] == missing;
    }
  }
}
