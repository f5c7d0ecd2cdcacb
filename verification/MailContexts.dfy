/** What a message's context says, line by line, and which way its rows say the mail went. */
module MailContexts {
  import opened Text
  import opened MailLog

  // ---- values found in lines ----------------------------------------------------------------

  ghost function LastSome<T>(lines: seq<Line>, f: Line -> Option<T>): Option<T> {
    if lines == [] then None
    else
      var last := f(lines[|lines| - 1]);
      if last.Some? then last else LastSome(lines[..|lines| - 1], f)
  }

  ghost function FirstSome<T>(lines: seq<Line>, f: Line -> Option<T>): Option<T> {
    if lines == [] then None
    else
      var before := FirstSome(lines[..|lines| - 1], f);
      if before.Some? then before else f(lines[|lines| - 1])
  }

  function MessageIdIn(qid: string): Line -> Option<string> {
    (l: Line) => if l.event.MessageId? && l.event.qid == qid then Some(l.event.id) else None
  }

  function SubjectIn(qid: string): Line -> Option<string> {
    (l: Line) => if l.event.Subject? && l.event.qid == qid then Some(l.event.subject) else None
  }

  function SenderIn(qid: string): Line -> Option<string> {
    (l: Line) =>
      if l.event.Queued? && l.event.qid == qid then Some(l.event.sender)
      else if l.event.Pickup? && l.event.qid == qid then Some(l.event.sender) else None
  }

  function SizeIn(qid: string): Line -> Option<nat> {
    (l: Line) => if l.event.Queued? && l.event.qid == qid then Some(l.event.size) else None
  }

  /** The client line: host, address and user. */
  function ClientIn(qid: string): Line -> Option<(string, string, Option<string>)> {
    (l: Line) => if l.event.Client? && l.event.qid == qid then Some((l.event.host, l.event.ip, l.event.saslUser)) else None
  }

  /** How the mail came in, and when: a client of one of the services, or the local pickup. */
  function EntryIn(qid: string): Line -> Option<(string, int)> {
    (l: Line) =>
      if l.event.Client? && l.event.qid == qid then Some((SourceOf(l.event.syslogName), l.time))
      else if l.event.Pickup? && l.event.qid == qid then Some(("local", l.time)) else None
  }

  /** The context says what these lines said, the first of them having begun it. */
  ghost predicate SaysThese(c: Context, lines: seq<Line>, qid: string)
    requires lines != []
  {
    var client, entry := LastSome(lines, ClientIn(qid)), LastSome(lines, EntryIn(qid));
    && c.messageId == LastSome(lines, MessageIdIn(qid)) && c.subject == FirstSome(lines, SubjectIn(qid))
    && c.sender == LastSome(lines, SenderIn(qid)) && c.size == LastSome(lines, SizeIn(qid))
    && c.clientHost == (if client.None? then None else Some(client.value.0))
    && c.clientIp == (if client.None? then None else Some(client.value.1))
    && c.saslUser == (if client.None? then None else client.value.2)
    && c.source == (if entry.None? then None else Some(entry.value.0))
    && c.receivedAt == (if entry.None? then lines[0].time else entry.value.1)
  }

  lemma OtherLinesSayNothing(c: Context, lines: seq<Line>, last: Line, qid: string)
    requires lines != [] && SaysThese(c, lines, qid) && !(Tells(last.event) && last.event.qid == qid)
    ensures SaysThese(c, lines + [last], qid)
  {
    assert (lines + [last])[..|lines|] == lines;
    hide SourceOf;
  }

  lemma NotedSaysMore(c: Context, lines: seq<Line>, last: Line, qid: string)
    requires lines != [] && SaysThese(c, lines, qid) && Tells(last.event) && last.event.qid == qid
    ensures SaysThese(Noted(c, last.event, last.time), lines + [last], qid)
  {
    assert (lines + [last])[..|lines|] == lines;
    hide SourceOf;
  }

  lemma OneLine<T>(l: Line, f: Line -> Option<T>)
    ensures LastSome([l], f) == f(l) && FirstSome([l], f) == f(l)
  {
    var lines := [l];
    assert lines[..|lines| - 1] == [];
    assert LastSome([], f) == None && FirstSome([], f) == None;
  }

  lemma FirstLineSays(last: Line, qid: string)
    requires Tells(last.event) && last.event.qid == qid
    ensures SaysThese(Noted(ContextOf(map[], qid, last.time), last.event, last.time), [last], qid)
  {
    OneLine(last, MessageIdIn(qid));
    OneLine(last, SubjectIn(qid));
    OneLine(last, SenderIn(qid));
    OneLine(last, SizeIn(qid));
    OneLine(last, ClientIn(qid));
    OneLine(last, EntryIn(qid));
    hide SourceOf, LastSome, FirstSome;
  }

  /**
   * A context begun by a line of the message says, as long as it lasts, the last message id, the first subject, the last
   * sender and size, the last client, and how and when the mail came in last.
   */
  lemma {:induction false} ContextSays(s: State, lines: seq<Line>, qid: string)
    requires qid !in s.contexts && lines != [] && Tells(lines[0].event) && lines[0].event.qid == qid
    requires forall i :: 0 <= i < |lines| ==> !Forgets(lines[i].event, qid)
    ensures qid in After(s, lines).contexts && SaysThese(After(s, lines).contexts[qid], lines, qid)
  {
    var last, before := lines[|lines| - 1], lines[..|lines| - 1];
    assert lines == before + [last];
    hide SaysThese, Upserted, Restated, OfferOf, Noted;
    if before == [] {
      FirstLineSays(last, qid);
    } else {
      ContextSays(s, before, qid);
      assert !Forgets(last.event, qid);
      var c := After(s, before).contexts[qid];
      if Tells(last.event) && last.event.qid == qid {
        NotedSaysMore(c, before, last, qid);
      } else {
        OtherLinesSayNothing(c, before, last, qid);
      }
    }
  }

  /** Four services name their mail's source; mail from any other is local. */
  lemma SourcesAre(syslogName: string)
    ensures var source := SourceOf(syslogName);
      && (source == "smtp" <==> syslogName == "postfix/smtp-in") && (source == "submission" <==> syslogName == "postfix/submission")
      && (source == "smtps" <==> syslogName == "postfix/smtps") && (source == "app" <==> syslogName == "postfix/app")
      && (source == "smtp" || source == "submission" || source == "smtps" || source == "app" || source == "local")
  {
  }

  // ---- where a row says the mail came from ----------------------------------------------------

  /** What the offer would take from the message's context: as it is for a refusal, looked up in the table for a delivery. */
  function ContextFor(s: State, e: Event): Option<Context> {
    match e
    case Delivery(qid, _, _, _, _, _, _, _, _) => Found(Recalled(s, qid), Some(qid))
    case Reject(qid, _, _, _, _, _, _, _, _, _) => Found(s.contexts, qid)
    case _ => None
  }

  /**
   * A refusal names sender, host and address itself; a delivery takes them from the context, and the recipient first
   * addressed from its line. The first-seen time is the context's, or that of the line when there is no context.
   */
  lemma OriginsAre(s: State, e: Event, time: int)
    requires OfferOf(s, e, time).Some?
    ensures var offer, c := OfferOf(s, e, time).value, ContextFor(s, e);
      && (e.Reject? ==>
            && offer.origin.sender == Cut(e.from, 254) && offer.origin.origRecipient.None?
            && offer.facts.clientHost == Some(Cut(e.host, 255)) && offer.facts.clientIp == Some(Cut(e.ip, 64))
            && offer.origin.source == (if c.Some? && c.value.source.Some? then c.value.source else Some(SourceOf(e.syslogName))))
      && (e.Delivery? ==>
            && (e.origTo.None? ==> offer.origin.origRecipient.None?)
            && (e.origTo.Some? ==> offer.origin.origRecipient == Some(Cut(e.origTo.value, 254)))
            && offer.origin.sender == (if c.Some? && c.value.sender.Some? then Cut(c.value.sender.value, 254) else "")
            && offer.origin.source == (if c.Some? then c.value.source else None))
      && offer.origin.createdAt == (if c.Some? then c.value.receivedAt else time)
      && offer.facts.subject == (if c.Some? then c.value.subject else None)
      && offer.facts.size == (if c.Some? then c.value.size else None)
  {
    hide Recalled, SourceOf, DeliveryStatus, RejectDirection;
  }

  // ---- directions ---------------------------------------------------------------------------

  /**
   * A delivery came in if it went to a local mailbox or the recipient is one, and went out otherwise. A refused mail came in
   * when its recipient is local, or is not known and the client came over SMTP; relaying is what a client over SMTP asks for
   * another recipient; anything else was on its way out.
   */
  lemma DirectionsAre(s: State, e: Event, time: int)
    requires OfferOf(s, e, time).Some?
    ensures var way := OfferOf(s, e, time).value.origin.direction;
      && (e.Delivery? ==> (way.In? <==> e.transport == "lmtp" || e.local) && !way.Relay?)
      && (e.Reject? ==>
           var known := e.rcpt.Some? && e.rcpt.value != "";
           var source := OfferOf(s, e, time).value.origin.source;
           && source.Some?
           && (way.In? <==> (known && e.local) || (!known && source == Some("smtp")))
           && (way.Relay? <==> known && !e.local && source == Some("smtp")))
  {
    hide Recalled, SourceOf, DeliveryStatus;
  }
}
