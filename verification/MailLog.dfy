/**
 * The mail log: one row for each recipient of each message, put together from the lines Postfix writes and from what
 * earlier lines said about the message.
 */
module MailLog {
  import opened Text

  /** What is known about a queued message before its delivery lines arrive. */
  datatype Context = Context(
    receivedAt: int, sender: Option<string>, size: Option<nat>, messageId: Option<string>, subject: Option<string>,
    clientHost: Option<string>, clientIp: Option<string>, source: Option<string>, saslUser: Option<string>)

  datatype Direction = In | Out | Relay

  /** Rows without a queue id never collide; the others are found by queue id and recipient. */
  datatype Key = Key(queueId: Option<string>, recipient: string)

  /** What the first line about a recipient settles. */
  datatype Origin = Origin(direction: Direction, sender: string, origRecipient: Option<string>, source: Option<string>, createdAt: int)

  /** What later lines may still add. */
  datatype Facts = Facts(
    messageId: Option<string>, subject: Option<string>, size: Option<nat>,
    clientHost: Option<string>, clientIp: Option<string>, saslUser: Option<string>)

  /** How the last attempt went. */
  datatype Outcome = Outcome(relay: Option<string>, dsn: Option<string>, detail: Option<string>)

  datatype Row = Row(key: Key, origin: Origin, facts: Facts, outcome: Outcome, status: string, attempts: nat, updatedAt: int)

  datatype Event =
    | Client(qid: string, host: string, ip: string, saslUser: Option<string>, syslogName: string)
    | Pickup(qid: string, sender: string)
    | MessageId(qid: string, id: string)
    | Subject(qid: string, subject: string)
    | Queued(qid: string, sender: string, size: nat)
    | Removed(qid: string)
    | Expired(qid: string)
    | Deleted(qid: string)
    | Delivery(qid: string, transport: string, to: string, origTo: Option<string>, relay: string, dsn: string, status: string,
               detail: Option<string>, local: bool)
    | Reject(queueId: Option<string>, stage: string, host: string, ip: string, code: Option<string>, text: string,
             from: string, rcpt: Option<string>, syslogName: string, local: bool)
    | Lost(qids: set<string>) // a restart, or contexts nobody touched for days

  /** An event and the time of its line. */
  datatype Line = Line(event: Event, time: int)

  /** The contexts in memory and the table. */
  datatype State = State(contexts: map<string, Context>, rows: seq<Row>)

  const NEW := State(map[], [])

  function SourceOf(syslogName: string): string {
    match syslogName
    case "postfix/smtp-in" => "smtp"
    case "postfix/submission" => "submission"
    case "postfix/smtps" => "smtps"
    case "postfix/app" => "app"
    case _ => "local"
  }

  /** What a delivery line says about the mail; nothing for address probes and unknown words. */
  function DeliveryStatus(status: string, transport: string): Option<string> {
    if status == "sent" then
      Some(if transport == "lmtp" || transport == "virtual" || transport == "local" then "delivered" else "sent")
    else if status == "deferred" || status == "bounced" || status == "expired" then Some(status)
    else None
  }

  function RejectDirection(rcpt: string, local: bool, source: string): Direction {
    if rcpt != "" && local then In
    else if source == "smtp" then if rcpt != "" then Relay else In
    else Out
  }

  function CutSome(s: Option<string>, n: nat): Option<string> {
    if s.None? then None else Some(Cut(s.value, n))
  }

  // ---- contexts ---------------------------------------------------------------------------

  /** The context of a message, a blank one if there is none. */
  function ContextOf(contexts: map<string, Context>, qid: string, time: int): Context {
    if qid in contexts then contexts[qid] else Context(time, None, None, None, None, None, None, None, None)
  }

  /** The place of the oldest row of a message. */
  function FirstOf(rows: seq<Row>, qid: string): (r: Option<nat>)
    ensures r.Some? ==> r.value < |rows| && rows[r.value].key.queueId == Some(qid)
    ensures r.Some? ==> forall i :: 0 <= i < r.value ==> rows[i].key.queueId != Some(qid)
    ensures r.None? ==> forall i :: 0 <= i < |rows| ==> rows[i].key.queueId != Some(qid)
  {
    if rows == [] then None
    else
      var before := FirstOf(rows[..|rows| - 1], qid);
      if before.Some? then before
      else if rows[|rows| - 1].key.queueId == Some(qid) then Some(|rows| - 1) else None
  }

  /** The context as an earlier row of the message still carries it. */
  function Rebuilt(row: Row): Context {
    Context(row.origin.createdAt, Some(row.origin.sender), row.facts.size, row.facts.messageId, row.facts.subject,
            row.facts.clientHost, row.facts.clientIp, row.origin.source, row.facts.saslUser)
  }

  /** The contexts once a delivery line of the message has looked for its own. */
  function Recalled(s: State, qid: string): map<string, Context> {
    var first := FirstOf(s.rows, qid);
    if qid in s.contexts || first.None? then s.contexts else s.contexts[qid := Rebuilt(s.rows[first.value])]
  }

  function Found(contexts: map<string, Context>, qid: Option<string>): Option<Context> {
    if qid.Some? && qid.value in contexts then Some(contexts[qid.value]) else None
  }

  // ---- rows -------------------------------------------------------------------------------

  datatype Upsert = Upsert(
    key: Key, direction: Direction, status: string, ctx: Option<Context>, sender: Option<string>, origRecipient: Option<string>,
    outcome: Outcome, source: Option<string>, clientHost: Option<string>, clientIp: Option<string>, at: int)

  /** The row offered to the table. */
  function Offer(u: Upsert): Row {
    var c := if u.ctx.Some? then u.ctx.value else ContextOf(map[], "", u.at);
    var sender := OrElse(u.sender, c.sender);
    Row(u.key,
        Origin(u.direction, Cut(if sender.None? then "" else sender.value, 254), CutSome(u.origRecipient, 254),
               OrElse(u.source, c.source), c.receivedAt),
        Facts(CutSome(c.messageId, 512), c.subject, c.size, CutSome(OrElse(u.clientHost, c.clientHost), 255),
              CutSome(OrElse(u.clientIp, c.clientIp), 64), CutSome(c.saslUser, 254)),
        u.outcome.(relay := CutSome(u.outcome.relay, 255)), u.status, 1, u.at)
  }

  function Coalesced(current: Facts, offered: Facts): Facts {
    Facts(OrElse(current.messageId, offered.messageId), OrElse(current.subject, offered.subject), OrElse(current.size, offered.size),
          OrElse(current.clientHost, offered.clientHost), OrElse(current.clientIp, offered.clientIp), OrElse(current.saslUser, offered.saslUser))
  }

  function Merged(row: Row, offer: Row): Row {
    row.(status := offer.status, outcome := offer.outcome, attempts := row.attempts + 1, updatedAt := offer.updatedAt,
         facts := Coalesced(row.facts, offer.facts))
  }

  /** The row an offer collides with. */
  function Collision(rows: seq<Row>, key: Key): (r: Option<nat>)
    ensures r.Some? ==> r.value < |rows| && rows[r.value].key == key && key.queueId.Some?
    ensures r.None? && key.queueId.Some? ==> forall i :: 0 <= i < |rows| ==> rows[i].key != key
  {
    if rows == [] || key.queueId.None? then None
    else if rows[|rows| - 1].key == key then Some(|rows| - 1)
    else Collision(rows[..|rows| - 1], key)
  }

  function Upserted(rows: seq<Row>, offer: Row): seq<Row> {
    var at := Collision(rows, offer.key);
    if at.Some? then rows[at.value := Merged(rows[at.value], offer)] else rows + [offer]
  }

  /** Deferred rows of the message get the new status. */
  function Restated(rows: seq<Row>, qid: string, status: string, time: int): (r: seq<Row>)
    ensures |r| == |rows|
    ensures forall i :: 0 <= i < |rows| ==>
      r[i] == if rows[i].key.queueId == Some(qid) && rows[i].status == "deferred" then rows[i].(status := status, updatedAt := time)
              else rows[i]
  {
    seq(|rows|, i requires 0 <= i < |rows| =>
      if rows[i].key.queueId == Some(qid) && rows[i].status == "deferred" then rows[i].(status := status, updatedAt := time)
      else rows[i])
  }

  // ---- what a line does -------------------------------------------------------------------

  /** What a line adds to the context of its message. */
  function Noted(c: Context, e: Event, time: int): Context {
    match e
    case Client(_, host, ip, saslUser, syslogName) =>
      c.(clientHost := Some(host), clientIp := Some(ip), saslUser := saslUser, source := Some(SourceOf(syslogName)), receivedAt := time)
    case Pickup(_, sender) => c.(sender := Some(sender), source := Some("local"), receivedAt := time)
    case MessageId(_, id) => c.(messageId := Some(id))
    case Subject(_, subject) => c.(subject := OrElse(c.subject, Some(subject)))
    case Queued(_, sender, size) => c.(sender := Some(sender), size := Some(size))
    case _ => c
  }

  /** A line about a message that only its context keeps. */
  predicate Tells(e: Event) {
    e.Client? || e.Pickup? || e.MessageId? || e.Subject? || e.Queued?
  }

  function DeliveryUpsert(e: Event, ctx: Option<Context>, status: string, time: int): Upsert
    requires e.Delivery?
  {
    Upsert(Key(Some(e.qid), Cut(e.to, 254)), if e.transport == "lmtp" || e.local then In else Out, status, ctx, None, e.origTo,
           Outcome(if e.relay == "none" then None else Some(e.relay), Some(e.dsn), e.detail), None, None, None, time)
  }

  function RejectUpsert(e: Event, ctx: Option<Context>, time: int): Upsert
    requires e.Reject?
  {
    var rcpt := if e.rcpt.None? then "" else e.rcpt.value;
    var source := if ctx.Some? && ctx.value.source.Some? then ctx.value.source.value else SourceOf(e.syslogName);
    Upsert(Key(e.queueId, Cut(rcpt, 254)), RejectDirection(rcpt, e.local, source), "rejected", ctx, Some(e.from), None,
           Outcome(None, e.code, Some(e.stage + ": " + e.text)), Some(source), Some(e.host), Some(e.ip), time)
  }

  /** The row a line offers to the table, if it is about a delivery or a reject. */
  function OfferOf(s: State, e: Event, time: int): Option<Row> {
    match e
    case Delivery(qid, transport, _, _, _, _, word, _, _) =>
      var status := DeliveryStatus(word, transport);
      if status.None? then None else Some(Offer(DeliveryUpsert(e, Found(Recalled(s, qid), Some(qid)), status.value, time)))
    case Reject(qid, _, _, _, _, _, _, _, _, _) => Some(Offer(RejectUpsert(e, Found(s.contexts, qid), time)))
    case _ => None
  }

  function Applied(s: State, e: Event, time: int): State {
    match e
    case Removed(qid) => s.(contexts := s.contexts - {qid})
    case Expired(qid) => s.(rows := Restated(s.rows, qid, "expired", time))
    case Deleted(qid) => State(s.contexts - {qid}, Restated(s.rows, qid, "deleted", time))
    case Delivery(qid, _, _, _, _, _, _, _, _) =>
      var offer := OfferOf(s, e, time);
      if offer.None? then s else State(Recalled(s, qid), Upserted(s.rows, offer.value))
    case Reject(_, _, _, _, _, _, _, _, _, _) => s.(rows := Upserted(s.rows, OfferOf(s, e, time).value))
    case Lost(qids) => s.(contexts := s.contexts - qids)
    case _ => s.(contexts := s.contexts[e.qid := Noted(ContextOf(s.contexts, e.qid, time), e, time)])
  }

  class Ingest {
    var contexts: map<string, Context>
    var rows: seq<Row>

    ghost function View(): State
      reads this
    {
      State(contexts, rows)
    }

    constructor ()
      ensures View() == NEW
    {
      contexts, rows := map[], [];
    }

    method Note(e: Event, time: int)
      requires Tells(e)
      modifies this`contexts
      ensures View() == Applied(old(View()), e, time)
    {
      var c := ContextOf(contexts, e.qid, time);
      contexts := contexts[e.qid := Noted(c, e, time)];
    }

    /** After a restart the context is gone; the oldest row of the message stands in for it. */
    method ContextFromDb(qid: string) returns (c: Option<Context>)
      requires qid !in contexts
      modifies this`contexts
      ensures contexts == Recalled(old(View()), qid) && c == Found(contexts, Some(qid))
    {
      var first := FirstOf(rows, qid);
      if first.None? {
        return None;
      }
      c := Some(Rebuilt(rows[first.value]));
      contexts := contexts[qid := c.value];
    }

    method Write(u: Upsert)
      modifies this`rows
      ensures rows == Upserted(old(rows), Offer(u))
    {
      var offer := Offer(u);
      var at := Collision(rows, offer.key);
      if at.Some? {
        rows := rows[at.value := Merged(rows[at.value], offer)];
      } else {
        rows := rows + [offer];
      }
    }

    /** Feeds one line of the log into the table. */
    method Apply(e: Event, time: int)
      modifies this
      ensures View() == Applied(old(View()), e, time)
    {
      match e {
        case Removed(qid) => contexts := contexts - {qid};
        case Expired(qid) => rows := Restated(rows, qid, "expired", time);
        case Deleted(qid) =>
          contexts := contexts - {qid};
          rows := Restated(rows, qid, "deleted", time);
        case Delivery(qid, transport, _, _, _, _, word, _, _) =>
          var status := DeliveryStatus(word, transport);
          if status.None? {
            return;
          }
          var ctx := Found(contexts, Some(qid));
          if ctx.None? {
            ctx := ContextFromDb(qid);
          }
          Write(DeliveryUpsert(e, ctx, status.value, time));
        case Reject(qid, _, _, _, _, _, _, _, _, _) => Write(RejectUpsert(e, Found(contexts, qid), time));
        case Lost(qids) => contexts := contexts - qids;
        case _ => Note(e, time);
      }
    }
  }

  // ---- runs -------------------------------------------------------------------------------

  ghost function After(s: State, lines: seq<Line>): State {
    if lines == [] then s
    else
      var last := lines[|lines| - 1];
      Applied(After(s, lines[..|lines| - 1]), last.event, last.time)
  }

  /** The rows offered for one key in the course of a run, oldest first. */
  ghost function OffersTo(lines: seq<Line>, key: Key): (offers: seq<Row>)
    ensures forall k :: 0 <= k < |offers| ==> offers[k].key == key
  {
    if lines == [] then []
    else
      var last := lines[|lines| - 1];
      var offer := OfferOf(After(NEW, lines[..|lines| - 1]), last.event, last.time);
      OffersTo(lines[..|lines| - 1], key) + if offer.Some? && offer.value.key == key then [offer.value] else []
  }

  /** What is known after several offers: of each fact the oldest that was given. */
  ghost function FirstFacts(offers: seq<Row>): Facts {
    if offers == [] then Facts(None, None, None, None, None, None)
    else Coalesced(FirstFacts(offers[..|offers| - 1]), offers[|offers| - 1].facts)
  }

  /** A row tells its history: how often, where it came from, what was learnt first, and how the last attempt went. */
  ghost predicate TellsHistory(row: Row, offers: seq<Row>) {
    && offers != [] && row.attempts == |offers| && row.origin == offers[0].origin
    && row.facts == FirstFacts(offers) && row.outcome == offers[|offers| - 1].outcome
  }

  /** The one row of a key, and that it tells the history of the key; no row without history. */
  ghost predicate Records(rows: seq<Row>, key: Key, offers: seq<Row>) {
    if offers == [] then forall i :: 0 <= i < |rows| ==> rows[i].key != key
    else exists i :: RecordedAt(rows, key, offers, i)
  }

  ghost predicate RecordedAt(rows: seq<Row>, key: Key, offers: seq<Row>, i: int) {
    && 0 <= i < |rows| && rows[i].key == key && TellsHistory(rows[i], offers)
    && forall j :: 0 <= j < |rows| && j != i ==> rows[j].key != key
  }

  /** The table after a line: with the offered row, with other statuses, or as it was. */
  lemma RowsAfter(s: State, e: Event, time: int)
    ensures var offer := OfferOf(s, e, time);
      && (offer.Some? ==> offer.value.attempts == 1)
      && Applied(s, e, time).rows ==
           if offer.Some? then Upserted(s.rows, offer.value)
           else if e.Expired? then Restated(s.rows, e.qid, "expired", time)
           else if e.Deleted? then Restated(s.rows, e.qid, "deleted", time)
           else s.rows
  {
    hide Upserted, Restated, Recalled, DeliveryUpsert, RejectUpsert;
  }

  lemma RestatingKeepsRecords(rows: seq<Row>, qid: string, status: string, time: int, key: Key, offers: seq<Row>)
    requires Records(rows, key, offers)
    ensures Records(Restated(rows, qid, status, time), key, offers)
  {
    if offers != [] {
      var i :| RecordedAt(rows, key, offers, i);
      assert RecordedAt(Restated(rows, qid, status, time), key, offers, i);
    }
  }

  lemma UpsertingRecords(rows: seq<Row>, offer: Row, key: Key, offers: seq<Row>)
    requires key.queueId.Some? && Records(rows, key, offers) && offer.attempts == 1
    ensures Records(Upserted(rows, offer), key, if offer.key == key then offers + [offer] else offers)
  {
    var at, after := Collision(rows, offer.key), Upserted(rows, offer);
    if offer.key == key {
      var all := offers + [offer];
      assert all[..|all| - 1] == offers;
      var i := if at.Some? then at.value else |rows|;
      if offers == [] {
        assert FirstFacts(all) == Coalesced(FirstFacts([]), offer.facts);
      } else {
        var was :| RecordedAt(rows, key, offers, was);
      }
      assert RecordedAt(after, key, all, i);
    } else if offers != [] {
      var was :| RecordedAt(rows, key, offers, was);
      assert RecordedAt(after, key, offers, was);
    }
  }

  /**
   * For any lines in any order, with contexts lost at any points, a recipient of a message has one row. Its attempts are the
   * lines that reported one, its origin never changes, every fact is the first that was known, the outcome is the last.
   */
  lemma {:induction false} RowsTellTheirHistory(lines: seq<Line>, key: Key)
    requires key.queueId.Some?
    ensures Records(After(NEW, lines).rows, key, OffersTo(lines, key))
  {
    hide Applied, OfferOf, Upserted, Restated, RecordedAt, TellsHistory, FirstFacts;
    if lines != [] {
      var last, before := lines[|lines| - 1], lines[..|lines| - 1];
      RowsTellTheirHistory(before, key);
      var s := After(NEW, before);
      var offer := OfferOf(s, last.event, last.time);
      RowsAfter(s, last.event, last.time);
      assert OffersTo(lines, key)
          == if offer.Some? && offer.value.key == key then OffersTo(before, key) + [offer.value] else OffersTo(before, key);
      if offer.Some? {
        UpsertingRecords(s.rows, offer.value, key, OffersTo(before, key));
      } else if last.event.Expired? {
        RestatingKeepsRecords(s.rows, last.event.qid, "expired", last.time, key, OffersTo(before, key));
      } else if last.event.Deleted? {
        RestatingKeepsRecords(s.rows, last.event.qid, "deleted", last.time, key, OffersTo(before, key));
      }
    }
  }

  // ---- refused mail without a queue id ------------------------------------------------------

  ghost function RowsOf(rows: seq<Row>, key: Key): seq<Row> {
    if rows == [] then []
    else RowsOf(rows[..|rows| - 1], key) + if rows[|rows| - 1].key == key then [rows[|rows| - 1]] else []
  }

  lemma {:induction false} RestatingLeavesRefused(rows: seq<Row>, qid: string, status: string, time: int, key: Key)
    requires key.queueId.None?
    ensures RowsOf(Restated(rows, qid, status, time), key) == RowsOf(rows, key)
  {
    if rows != [] {
      var n := |rows| - 1;
      RestatingLeavesRefused(rows[..n], qid, status, time, key);
      assert Restated(rows, qid, status, time)[..n] == Restated(rows[..n], qid, status, time);
    }
  }

  lemma {:induction false} UpdatingLeavesOthers(rows: seq<Row>, i: nat, row: Row, key: Key)
    requires i < |rows| && row.key == rows[i].key != key
    ensures RowsOf(rows[i := row], key) == RowsOf(rows, key)
  {
    var n := |rows| - 1;
    if i < n {
      UpdatingLeavesOthers(rows[..n], i, row, key);
      assert rows[i := row][..n] == rows[..n][i := row];
    } else {
      assert rows[i := row][..n] == rows[..n];
    }
  }

  /** Mail refused before it had a queue id: every refusal stays a row of its own, in order and unchanged. */
  lemma {:induction false} RefusalsAreKeptApart(lines: seq<Line>, key: Key)
    requires key.queueId.None?
    ensures RowsOf(After(NEW, lines).rows, key) == OffersTo(lines, key)
  {
    hide Applied, OfferOf, Restated;
    if lines != [] {
      var last, before := lines[|lines| - 1], lines[..|lines| - 1];
      RefusalsAreKeptApart(before, key);
      var s := After(NEW, before);
      var offer := OfferOf(s, last.event, last.time);
      RowsAfter(s, last.event, last.time);
      if offer.Some? {
        var at := Collision(s.rows, offer.value.key);
        if at.Some? {
          UpdatingLeavesOthers(s.rows, at.value, Merged(s.rows[at.value], offer.value), key);
        } else {
          assert (s.rows + [offer.value])[..|s.rows|] == s.rows;
        }
      } else if last.event.Expired? {
        RestatingLeavesRefused(s.rows, last.event.qid, "expired", last.time, key);
      } else if last.event.Deleted? {
        RestatingLeavesRefused(s.rows, last.event.qid, "deleted", last.time, key);
      }
    }
  }

  // ---- losing contexts ----------------------------------------------------------------------

  /** What a delivery line takes from a context. */
  datatype Shown = Shown(sender: string, source: Option<string>, createdAt: int, facts: Facts)

  function ShownOf(c: Context): Shown {
    Shown(Cut(if c.sender.None? then "" else c.sender.value, 254), c.source, c.receivedAt,
          Facts(CutSome(c.messageId, 512), c.subject, c.size, CutSome(c.clientHost, 255), CutSome(c.clientIp, 64), CutSome(c.saslUser, 254)))
  }

  /** The message has a row, and its context, if there still is one, says the same as the oldest row. */
  ghost predicate Faithful(s: State, qid: string) {
    var first := FirstOf(s.rows, qid);
    first.Some? && (qid in s.contexts ==> ShownOf(s.contexts[qid]) == ShownOf(Rebuilt(s.rows[first.value])))
  }

  /** Lines after which the context still says what the oldest row says: any but those that tell about the message anew. */
  predicate Harmless(e: Event, qid: string) {
    !(Tells(e) && e.qid == qid) && !(e.Reject? && e.queueId == Some(qid))
  }

  /** The tables hold the same keys in the same places, and the same rows for the message. */
  ghost predicate SameRows(a: seq<Row>, b: seq<Row>, qid: string) {
    && |a| == |b|
    && (forall i :: 0 <= i < |a| ==> a[i].key == b[i].key)
    && (forall i :: 0 <= i < |a| && a[i].key.queueId == Some(qid) ==> a[i] == b[i])
  }

  lemma {:induction false} SameKeysCollideAlike(a: seq<Row>, b: seq<Row>, key: Key)
    requires |a| == |b| && forall i :: 0 <= i < |a| ==> a[i].key == b[i].key
    ensures Collision(a, key) == Collision(b, key)
  {
    if a != [] {
      SameKeysCollideAlike(a[..|a| - 1], b[..|b| - 1], key);
    }
  }

  /** The first delivery of a message leaves its row and its context saying the same. */
  lemma FirstDeliveryIsFaithful(s: State, e: Event, time: int)
    requires e.Delivery? && OfferOf(s, e, time).Some? && FirstOf(s.rows, e.qid).None?
    ensures Faithful(Applied(s, e, time), e.qid)
  {
    var after := Applied(s, e, time);
    var first := FirstOf(after.rows, e.qid);
    assert after.rows == s.rows + [OfferOf(s, e, time).value];
    assert after.rows[|s.rows|].key.queueId == Some(e.qid);
    assert first.value == |s.rows|;
  }

  /** What a message's row offers and keeps does not depend on whether its context was lost. */
  lemma RecalledIsFaithful(s: State, qid: string)
    requires Faithful(s, qid)
    ensures var c := Found(Recalled(s, qid), Some(qid));
      c.Some? && ShownOf(c.value) == ShownOf(Rebuilt(s.rows[FirstOf(s.rows, qid).value]))
  {
  }

  lemma OfferShows(e: Event, c: Context, status: string, time: int)
    requires e.Delivery?
    ensures var offer, shown := Offer(DeliveryUpsert(e, Some(c), status, time)), ShownOf(c);
      && offer.facts == shown.facts && offer.origin.sender == shown.sender
      && offer.origin.source == shown.source && offer.origin.createdAt == shown.createdAt
  {
  }

  /** Which row a line is about does not depend on the state. */
  lemma OfferIsFor(s: State, t: State, e: Event, time: int)
    ensures OfferOf(s, e, time).Some? <==> OfferOf(t, e, time).Some?
    ensures OfferOf(s, e, time).Some? ==> OfferOf(s, e, time).value.key == OfferOf(t, e, time).value.key
    ensures OfferOf(s, e, time).Some? ==> e.Delivery? || e.Reject?
    ensures OfferOf(s, e, time).Some? && e.Delivery? ==> OfferOf(s, e, time).value.key.queueId == Some(e.qid)
    ensures OfferOf(s, e, time).Some? && e.Reject? ==> OfferOf(s, e, time).value.key.queueId == e.queueId
  {
    hide Recalled, ContextOf, RejectDirection;
  }

  lemma HarmlessOffer(s: State, t: State, e: Event, time: int, qid: string)
    requires Faithful(s, qid) && Faithful(t, qid) && SameRows(s.rows, t.rows, qid) && e.Delivery? && e.qid == qid
    ensures OfferOf(s, e, time) == OfferOf(t, e, time)
    ensures OfferOf(s, e, time).Some? ==>
      OfferOf(s, e, time).value.facts == ShownOf(Rebuilt(s.rows[FirstOf(s.rows, qid).value])).facts
  {
    var status := DeliveryStatus(e.status, e.transport);
    if status.Some? {
      var c, d := Found(Recalled(s, qid), Some(qid)), Found(Recalled(t, qid), Some(qid));
      FirstIsSame(s.rows, t.rows, qid);
      RecalledIsFaithful(s, qid);
      RecalledIsFaithful(t, qid);
      hide Recalled, Faithful, Rebuilt, ShownOf, SameRows;
      OfferShows(e, c.value, status.value, time);
      OfferShows(e, d.value, status.value, time);
    }
  }

  lemma FirstIsSame(a: seq<Row>, b: seq<Row>, qid: string)
    requires |a| <= |b| && (forall i :: 0 <= i < |a| ==> a[i].key == b[i].key) && FirstOf(a, qid).Some?
    ensures FirstOf(a, qid) == FirstOf(b, qid)
  {
    var i := FirstOf(a, qid).value;
    assert b[i].key.queueId == Some(qid);
    var j := FirstOf(b, qid).value;
    assert j < |a| ==> a[j].key.queueId == Some(qid);
  }

  lemma MergingShowsTheSame(row: Row, offer: Row)
    requires offer.facts == ShownOf(Rebuilt(row)).facts
    ensures ShownOf(Rebuilt(Merged(row, offer))) == ShownOf(Rebuilt(row))
  {
  }

  lemma HarmlessContext(s: State, e: Event, time: int, qid: string)
    requires Faithful(s, qid) && Harmless(e, qid)
    ensures var after := Applied(s, e, time).contexts;
      qid in after ==> ShownOf(after[qid]) == ShownOf(Rebuilt(s.rows[FirstOf(s.rows, qid).value]))
  {
    hide Upserted, Restated, OfferOf, ShownOf;
  }

  lemma HarmlessRow(s: State, e: Event, time: int, qid: string)
    requires Faithful(s, qid) && Harmless(e, qid)
    ensures var i, after := FirstOf(s.rows, qid), Applied(s, e, time).rows;
      FirstOf(after, qid) == i && ShownOf(Rebuilt(after[i.value])) == ShownOf(Rebuilt(s.rows[i.value]))
  {
    var i, after, offer := FirstOf(s.rows, qid), Applied(s, e, time).rows, OfferOf(s, e, time);
    RowsAfter(s, e, time);
    OfferIsFor(s, s, e, time);
    if offer.Some? && offer.value.key.queueId == Some(qid) {
      HarmlessOffer(s, s, e, time, qid);
      MergingShowsTheSame(s.rows[i.value], offer.value);
    }
    hide Applied, OfferOf, ShownOf, FirstOf, Collision;
    FirstIsSame(s.rows, after, qid);
  }

  lemma HarmlessStep(s: State, e: Event, time: int, qid: string)
    requires Faithful(s, qid) && Harmless(e, qid)
    ensures Faithful(Applied(s, e, time), qid)
  {
    HarmlessContext(s, e, time, qid);
    HarmlessRow(s, e, time, qid);
    hide Applied, ShownOf, Rebuilt;
  }

  lemma UpsertedPair(a: seq<Row>, b: seq<Row>, x: Row, y: Row, qid: string)
    requires SameRows(a, b, qid) && x.key == y.key && (x.key.queueId == Some(qid) ==> x == y)
    ensures SameRows(Upserted(a, x), Upserted(b, y), qid)
  {
    SameKeysCollideAlike(a, b, x.key);
  }

  lemma HarmlessPair(s: State, t: State, e: Event, time: int, qid: string)
    requires Faithful(s, qid) && Faithful(t, qid) && Harmless(e, qid) && SameRows(s.rows, t.rows, qid)
    ensures SameRows(Applied(s, e, time).rows, Applied(t, e, time).rows, qid)
  {
    RowsAfter(s, e, time);
    RowsAfter(t, e, time);
    OfferIsFor(s, t, e, time);
    if e.Delivery? && e.qid == qid {
      HarmlessOffer(s, t, e, time, qid);
    }
    if OfferOf(s, e, time).Some? {
      UpsertedPair(s.rows, t.rows, OfferOf(s, e, time).value, OfferOf(t, e, time).value, qid);
    }
    hide Applied, OfferOf, Faithful, Upserted;
  }

  ghost function Kept(lines: seq<Line>): seq<Line> {
    if lines == [] then []
    else Kept(lines[..|lines| - 1]) + if lines[|lines| - 1].event.Lost? then [] else [lines[|lines| - 1]]
  }

  lemma AfterOneMore(s: State, lines: seq<Line>, last: Line)
    ensures After(s, lines + [last]) == Applied(After(s, lines), last.event, last.time)
    ensures Kept(lines + [last]) == if last.event.Lost? then Kept(lines) else Kept(lines) + [last]
  {
    assert (lines + [last])[..|lines|] == lines;
  }

  ghost predicate AllHarmless(lines: seq<Line>, qid: string) {
    forall i :: 0 <= i < |lines| ==> Harmless(lines[i].event, qid)
  }

  lemma SameRowsAreSymmetric(a: seq<Row>, b: seq<Row>, c: seq<Row>, qid: string)
    requires SameRows(a, c, qid) && SameRows(b, c, qid)
    ensures SameRows(a, b, qid)
  {
  }

  lemma {:induction false} LossesChangeNothing(s: State, lines: seq<Line>, qid: string)
    requires Faithful(s, qid) && AllHarmless(lines, qid)
    ensures Faithful(After(s, lines), qid) && Faithful(After(s, Kept(lines)), qid)
    ensures SameRows(After(s, lines).rows, After(s, Kept(lines)).rows, qid)
  {
    if lines != [] {
      var last, before := lines[|lines| - 1], lines[..|lines| - 1];
      assert lines == before + [last] && Harmless(last.event, qid);
      LossesChangeNothing(s, before, qid);
      hide Faithful, Harmless, Applied, SameRows, After, Kept, AllHarmless;
      AfterOneMore(s, before, last);
      HarmlessStep(After(s, before), last.event, last.time, qid);
      if last.event.Lost? {
        LosingKeepsRows(After(s, before), last.event, last.time);
      } else {
        AfterOneMore(s, Kept(before), last);
        HarmlessPair(After(s, before), After(s, Kept(before)), last.event, last.time, qid);
        HarmlessStep(After(s, Kept(before)), last.event, last.time, qid);
      }
    }
  }

  lemma LosingKeepsRows(s: State, e: Event, time: int)
    requires e.Lost?
    ensures Applied(s, e, time).rows == s.rows
  {
  }

  predicate Forgets(e: Event, qid: string) {
    (e.Removed? && e.qid == qid) || (e.Deleted? && e.qid == qid) || (e.Lost? && qid in e.qids)
  }

  /** The message's own subject comes first: as long as its context lasts, no later header replaces it. */
  lemma {:induction false} FirstSubjectStays(s: State, lines: seq<Line>, qid: string)
    requires qid in s.contexts && s.contexts[qid].subject.Some?
    requires forall i :: 0 <= i < |lines| ==> !Forgets(lines[i].event, qid)
    ensures qid in After(s, lines).contexts && After(s, lines).contexts[qid].subject == s.contexts[qid].subject
  {
    hide Upserted, Restated, OfferOf;
    if lines != [] {
      FirstSubjectStays(s, lines[..|lines| - 1], qid);
      assert !Forgets(lines[|lines| - 1].event, qid);
    }
  }

  /**
   * Once a delivery has put a message into the table and nothing more is said about the message itself, its rows come out
   * the same however often and whenever contexts are lost.
   */
  lemma LostContextsDoNotShow(s: State, e: Event, time: int, lines: seq<Line>, others: seq<Line>)
    requires e.Delivery? && OfferOf(s, e, time).Some? && FirstOf(s.rows, e.qid).None?
    requires Kept(lines) == Kept(others) && AllHarmless(lines, e.qid) && AllHarmless(others, e.qid)
    ensures var first := Applied(s, e, time); SameRows(After(first, lines).rows, After(first, others).rows, e.qid)
  {
    FirstDeliveryIsFaithful(s, e, time);
    var first := Applied(s, e, time);
    hide Applied, OfferOf, Faithful, AllHarmless, After, Kept, SameRows;
    LossesChangeNothing(first, lines, e.qid);
    LossesChangeNothing(first, others, e.qid);
    SameRowsAreSymmetric(After(first, lines).rows, After(first, others).rows, After(first, Kept(lines)).rows, e.qid);
  }

  // ---- the case the rows do not cover -----------------------------------------------------------

  /**
   * A delivery after a loss offers what the oldest row carries. But a retry names sender and size again first, and that
   * starts a blank context which hides the rows: a recipient first tried then has no message id, subject, client or user.
   */
  lemma RetryAfterLossForgets(s: State, retry: Event, retried: int, e: Event, time: int)
    requires retry.Queued? && e.Delivery? && retry.qid == e.qid && DeliveryStatus(e.status, e.transport).Some?
    requires e.qid !in s.contexts && FirstOf(s.rows, e.qid).Some?
    ensures OfferOf(s, e, time).value.facts == ShownOf(Rebuilt(s.rows[FirstOf(s.rows, e.qid).value])).facts
    ensures OfferOf(Applied(s, retry, retried), e, time).value.facts == Facts(None, None, Some(retry.size), None, None, None)
    ensures OfferOf(Applied(s, retry, retried), e, time).value.origin.createdAt == retried
  {
    var c := Rebuilt(s.rows[FirstOf(s.rows, e.qid).value]);
    assert Found(Recalled(s, e.qid), Some(e.qid)) == Some(c);
    OfferShows(e, c, DeliveryStatus(e.status, e.transport).value, time);
  }
}
