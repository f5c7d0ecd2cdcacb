/**
 * What losing contexts can change in the mail log: nothing in a row that already knows what later lines can tell, and the
 * row of a recipient first tried later exactly when a retry has started a blank context and the oldest row knows more.
 */
module MailLosses {
  import opened Text
  import opened MailLog

  // ---- rows that know what there is to know ------------------------------------------------------

  /** Everything said by `more` is known already. */
  predicate Has(known: Facts, more: Facts) {
    Coalesced(known, more) == known
  }

  /** The line says nothing about the message that is not known already. */
  predicate SaysNothingNew(known: Facts, e: Event, qid: string) {
    match e
    case Client(q, _, _, user, _) => q == qid ==> known.clientHost.Some? && known.clientIp.Some? && (user.Some? ==> known.saslUser.Some?)
    case MessageId(q, _) => q == qid ==> known.messageId.Some?
    case Subject(q, _) => q == qid ==> known.subject.Some?
    case Queued(q, _, _) => q == qid ==> known.size.Some?
    case Reject(q, _, _, _, _, _, _, _, _, _) => q == Some(qid) ==> known.clientHost.Some? && known.clientIp.Some?
    case _ => true
  }

  /** Row `i` is about the message and knows what its context and its oldest row say. */
  ghost predicate KnowsAll(s: State, qid: string, i: nat) {
    && i < |s.rows| && s.rows[i].key.queueId == Some(qid)
    && Has(s.rows[i].facts, s.rows[FirstOf(s.rows, qid).value].facts)
    && (qid in s.contexts ==> Has(s.rows[i].facts, ShownOf(s.contexts[qid]).facts))
  }

  /** A new row knows all if it is the first of its message, or comes while the context says what the oldest row says. */
  lemma NewRowKnowsAll(s: State, e: Event, time: int)
    requires e.Delivery? && OfferOf(s, e, time).Some? && Collision(s.rows, OfferOf(s, e, time).value.key).None?
    requires FirstOf(s.rows, e.qid).None? || Faithful(s, e.qid)
    ensures KnowsAll(Applied(s, e, time), e.qid, |s.rows|)
  {
    var offer, c := OfferOf(s, e, time).value, Found(Recalled(s, e.qid), Some(e.qid));
    assert Applied(s, e, time) == State(Recalled(s, e.qid), s.rows + [offer]);
    OfferShowsFound(s, e, time);
    if FirstOf(s.rows, e.qid).None? {
      FirstIsAppended(s.rows, offer, e.qid);
    } else {
      FirstIsSame(s.rows, s.rows + [offer], e.qid);
      RecalledIsFaithful(s, e.qid);
    }
    hide Applied, OfferOf, Recalled, FirstOf, Collision, DeliveryStatus;
  }

  lemma OfferShowsFound(s: State, e: Event, time: int)
    requires e.Delivery? && OfferOf(s, e, time).Some?
    ensures var offer, c := OfferOf(s, e, time).value, Found(Recalled(s, e.qid), Some(e.qid));
      offer.key.queueId == Some(e.qid) && (c.Some? ==> offer.facts == ShownOf(c.value).facts)
  {
    hide Recalled;
  }

  lemma FirstIsAppended(rows: seq<Row>, row: Row, qid: string)
    requires FirstOf(rows, qid).None? && row.key.queueId == Some(qid)
    ensures FirstOf(rows + [row], qid) == Some(|rows|)
  {
    assert (rows + [row])[..|rows|] == rows;
  }

  lemma ContextStaysKnown(s: State, e: Event, time: int, qid: string, i: nat)
    requires KnowsAll(s, qid, i) && SaysNothingNew(s.rows[i].facts, e, qid)
    ensures var after := Applied(s, e, time).contexts;
      qid in after ==> Has(s.rows[i].facts, ShownOf(after[qid]).facts)
  {
    hide Upserted, Restated, OfferOf, FirstOf, SourceOf;
  }

  /** A line about the message offers nothing new to a row that knows all. */
  lemma OfferIsKnown(s: State, e: Event, time: int, qid: string, i: nat)
    requires KnowsAll(s, qid, i) && SaysNothingNew(s.rows[i].facts, e, qid)
    ensures var offer := OfferOf(s, e, time);
      offer.Some? && offer.value.key.queueId == Some(qid) ==> Has(s.rows[i].facts, offer.value.facts)
  {
    hide FirstOf, SourceOf, RejectDirection, DeliveryStatus;
  }

  lemma KnownStep(s: State, e: Event, time: int, qid: string, i: nat)
    requires KnowsAll(s, qid, i) && SaysNothingNew(s.rows[i].facts, e, qid)
    ensures KnowsAll(Applied(s, e, time), qid, i) && Applied(s, e, time).rows[i].facts == s.rows[i].facts
  {
    var after, first, offer := Applied(s, e, time).rows, FirstOf(s.rows, qid), OfferOf(s, e, time);
    RowsAfter(s, e, time);
    ContextStaysKnown(s, e, time, qid, i);
    OfferIsKnown(s, e, time, qid, i);
    hide Applied, OfferOf, FirstOf, Collision;
    FirstIsSame(s.rows, after, qid);
  }

  lemma UpsertedAlike(a: seq<Row>, b: seq<Row>, x: Row, y: Row, i: nat)
    requires SameKeys(a, b) && i < |a| && a[i] == b[i] && x.key == y.key && SameNews(x, y)
    requires x.key == a[i].key ==> Has(a[i].facts, x.facts) && Has(a[i].facts, y.facts)
    ensures SameKeys(Upserted(a, x), Upserted(b, y)) && Upserted(a, x)[i] == Upserted(b, y)[i]
  {
    SameKeysCollideAlike(a, b, x.key);
  }

  lemma KnownPair(s: State, t: State, e: Event, time: int, qid: string, i: nat)
    requires KnowsAll(s, qid, i) && KnowsAll(t, qid, i) && s.rows[i] == t.rows[i] && SameKeys(s.rows, t.rows)
    requires SaysNothingNew(s.rows[i].facts, e, qid)
    ensures var a, b := Applied(s, e, time).rows, Applied(t, e, time).rows;
      SameKeys(a, b) && i < |a| && a[i] == b[i]
  {
    assert s.rows[i].key.queueId == Some(qid);
    RowsAfter(s, e, time);
    RowsAfter(t, e, time);
    OfferIsFor(s, t, e, time);
    OfferIsKnown(s, e, time, qid, i);
    OfferIsKnown(t, e, time, qid, i);
    hide Applied, OfferOf, FirstOf, KnowsAll, Upserted, Has, SameNews, SaysNothingNew;
    if OfferOf(s, e, time).Some? {
      NewsIsTheSame(s, t, e, time);
      UpsertedAlike(s.rows, t.rows, OfferOf(s, e, time).value, OfferOf(t, e, time).value, i);
    }
  }

  /** Facts aside, two offers would change a row in the same way. */
  predicate SameNews(x: Row, y: Row) {
    x.status == y.status && x.outcome == y.outcome && x.updatedAt == y.updatedAt
  }

  lemma NewsIsTheSame(s: State, t: State, e: Event, time: int)
    requires OfferOf(s, e, time).Some? && OfferOf(t, e, time).Some?
    ensures SameNews(OfferOf(s, e, time).value, OfferOf(t, e, time).value)
  {
    hide Recalled, ContextOf, RejectDirection;
  }

  ghost predicate SameKeys(a: seq<Row>, b: seq<Row>) {
    |a| == |b| && forall i :: 0 <= i < |a| ==> a[i].key == b[i].key
  }

  ghost predicate NothingNew(known: Facts, lines: seq<Line>, qid: string) {
    forall k :: 0 <= k < |lines| ==> SaysNothingNew(known, lines[k].event, qid)
  }

  lemma {:induction false} KnownRun(s: State, lines: seq<Line>, qid: string, i: nat)
    requires KnowsAll(s, qid, i) && NothingNew(s.rows[i].facts, lines, qid)
    ensures var a, b := After(s, lines), After(s, Kept(lines));
      && KnowsAll(a, qid, i) && KnowsAll(b, qid, i) && SameKeys(a.rows, b.rows)
      && a.rows[i] == b.rows[i] && a.rows[i].facts == s.rows[i].facts
  {
    if lines != [] {
      var last, before := lines[|lines| - 1], lines[..|lines| - 1];
      assert i < |s.rows| && lines == before + [last] && SaysNothingNew(s.rows[i].facts, last.event, qid);
      KnownRun(s, before, qid, i);
      hide KnowsAll, SaysNothingNew, Applied, After, Kept, NothingNew;
      AfterOneMore(s, before, last);
      KnownStep(After(s, before), last.event, last.time, qid, i);
      if last.event.Lost? {
        LosingKeepsRows(After(s, before), last.event, last.time);
      } else {
        AfterOneMore(s, Kept(before), last);
        KnownPair(After(s, before), After(s, Kept(before)), last.event, last.time, qid, i);
        KnownStep(After(s, Kept(before)), last.event, last.time, qid, i);
      }
    }
  }

  /**
   * A row that knows all comes out the same however often and whenever contexts are lost, as long as no later line says
   * something new about the message. Postfix naming sender and size again before a retry says nothing new.
   */
  lemma KnownRowsDoNotNoticeLosses(s: State, lines: seq<Line>, others: seq<Line>, qid: string, i: nat)
    requires KnowsAll(s, qid, i) && Kept(lines) == Kept(others)
    requires NothingNew(s.rows[i].facts, lines, qid) && NothingNew(s.rows[i].facts, others, qid)
    ensures i < |After(s, lines).rows| && i < |After(s, others).rows|
    ensures After(s, lines).rows[i] == After(s, others).rows[i]
  {
    KnownRun(s, lines, qid, i);
    KnownRun(s, others, qid, i);
  }

  // ---- recipients first tried after a loss ---------------------------------------------------------

  /** What has become of a context: it says what the oldest row says, it is gone, or it is blank but for sender and size. */
  datatype Memory = Told | Gone | Blank(since: int)

  function MemoryStep(m: Memory, e: Event, time: int, qid: string): Memory {
    match e
    case Queued(q, _, _) => if q == qid && m.Gone? then Blank(time) else m
    case Delivery(q, transport, _, _, _, _, word, _, _) =>
      if q == qid && m.Gone? && DeliveryStatus(word, transport).Some? then Told else m
    case _ => if Forgets(e, qid) then Gone else m
  }

  /** A message whose context was there: what became of it in the course of some lines. */
  function MemoryAfter(lines: seq<Line>, qid: string): Memory {
    if lines == [] then Told
    else
      var last := lines[|lines| - 1];
      MemoryStep(MemoryAfter(lines[..|lines| - 1], qid), last.event, last.time, qid)
  }

  /** What a blank context shows once a retry has named sender and size again. */
  function Bare(shown: Shown, since: int): Shown {
    Shown(shown.sender, None, since, Facts(None, None, shown.facts.size, None, None, None))
  }

  function ShownWith(shown: Shown, m: Memory): Shown {
    if m.Blank? then Bare(shown, m.since) else shown
  }

  ghost predicate Remembers(s: State, qid: string, shown: Shown, m: Memory) {
    var first := FirstOf(s.rows, qid);
    && first.Some? && ShownOf(Rebuilt(s.rows[first.value])) == shown
    && (qid in s.contexts <==> !m.Gone?)
    && (qid in s.contexts ==> ShownOf(s.contexts[qid]) == ShownWith(shown, m))
  }

  /** A line that is not about the message itself, or names its sender and size as they are known. */
  predicate Repeats(e: Event, qid: string, shown: Shown) {
    Harmless(e, qid) || (e.Queued? && Cut(e.sender, 254) == shown.sender && Some(e.size) == shown.facts.size)
  }

  lemma RememberedContext(s: State, qid: string, shown: Shown, m: Memory, e: Event, time: int)
    requires Remembers(s, qid, shown, m) && Repeats(e, qid, shown)
    ensures var after, next := Applied(s, e, time).contexts, MemoryStep(m, e, time, qid);
      && (qid in after <==> !next.Gone?)
      && (qid in after ==> ShownOf(after[qid]) == ShownWith(shown, next))
  {
    assert e.Delivery? ==> (OfferOf(s, e, time).None? <==> DeliveryStatus(e.status, e.transport).None?);
    hide Upserted, Restated, OfferOf, FirstOf, SourceOf, DeliveryStatus, Cut;
  }

  lemma RememberedOffer(s: State, qid: string, shown: Shown, m: Memory, e: Event, time: int)
    requires Remembers(s, qid, shown, m) && e.Delivery? && e.qid == qid && OfferOf(s, e, time).Some?
    ensures OfferOf(s, e, time).value.facts == ShownWith(shown, m).facts
    ensures var origin := OfferOf(s, e, time).value.origin;
      Shown(origin.sender, origin.source, origin.createdAt, ShownWith(shown, m).facts) == ShownWith(shown, m)
  {
    var c, status := Found(Recalled(s, qid), Some(qid)), DeliveryStatus(e.status, e.transport);
    assert c.Some? && ShownOf(c.value) == ShownWith(shown, m);
    hide Recalled, Remembers, ShownOf, ShownWith;
    OfferShows(e, c.value, status.value, time);
  }

  lemma MergingKeepsShown(row: Row, offer: Row, m: Memory)
    requires offer.facts == ShownWith(ShownOf(Rebuilt(row)), m).facts
    ensures ShownOf(Rebuilt(Merged(row, offer))) == ShownOf(Rebuilt(row))
  {
  }

  lemma RememberedRow(s: State, qid: string, shown: Shown, m: Memory, e: Event, time: int)
    requires Remembers(s, qid, shown, m) && Repeats(e, qid, shown)
    ensures var i, after := FirstOf(s.rows, qid), Applied(s, e, time).rows;
      FirstOf(after, qid) == i && ShownOf(Rebuilt(after[i.value])) == shown
  {
    var i, after, offer := FirstOf(s.rows, qid), Applied(s, e, time).rows, OfferOf(s, e, time);
    RowsAfter(s, e, time);
    OfferIsFor(s, s, e, time);
    if offer.Some? && offer.value.key.queueId == Some(qid) {
      RememberedOffer(s, qid, shown, m, e, time);
      MergingKeepsShown(s.rows[i.value], offer.value, m);
    }
    hide Applied, OfferOf, ShownOf, ShownWith, FirstOf, Collision;
    FirstIsSame(s.rows, after, qid);
  }

  lemma MemoryHolds(s: State, qid: string, shown: Shown, m: Memory, e: Event, time: int)
    requires Remembers(s, qid, shown, m) && Repeats(e, qid, shown)
    ensures Remembers(Applied(s, e, time), qid, shown, MemoryStep(m, e, time, qid))
  {
    RememberedContext(s, qid, shown, m, e, time);
    RememberedRow(s, qid, shown, m, e, time);
    hide Applied, ShownOf, ShownWith, Rebuilt;
  }

  ghost predicate AllRepeat(lines: seq<Line>, qid: string, shown: Shown) {
    forall k :: 0 <= k < |lines| ==> Repeats(lines[k].event, qid, shown)
  }

  lemma {:induction false} RunRemembers(s: State, lines: seq<Line>, qid: string, shown: Shown)
    requires Remembers(s, qid, shown, Told) && AllRepeat(lines, qid, shown)
    ensures Remembers(After(s, lines), qid, shown, MemoryAfter(lines, qid))
  {
    if lines != [] {
      var last, before := lines[|lines| - 1], lines[..|lines| - 1];
      RunRemembers(s, before, qid, shown);
      hide Remembers, Repeats, Applied, MemoryStep;
      MemoryHolds(After(s, before), qid, shown, MemoryAfter(before, qid), last.event, last.time);
    }
  }

  /** Two offers for one delivery are the same exactly when they come from contexts that show the same. */
  lemma OffersAgreeIff(s: State, t: State, qid: string, shown: Shown, m: Memory, n: Memory, e: Event, time: int)
    requires Remembers(s, qid, shown, m) && Remembers(t, qid, shown, n)
    requires e.Delivery? && e.qid == qid && DeliveryStatus(e.status, e.transport).Some?
    ensures OfferOf(s, e, time) == OfferOf(t, e, time) <==> ShownWith(shown, m) == ShownWith(shown, n)
  {
    RememberedOffer(s, qid, shown, m, e, time);
    RememberedOffer(t, qid, shown, n, e, time);
    SameOtherwise(s, t, e, time);
    hide OfferOf, Remembers, ShownWith;
  }

  lemma SameOtherwise(s: State, t: State, e: Event, time: int)
    requires e.Delivery? && DeliveryStatus(e.status, e.transport).Some?
    ensures var x, y := OfferOf(s, e, time), OfferOf(t, e, time);
      && x.Some? && y.Some?
      && y.value.(origin := x.value.origin, facts := x.value.facts) == x.value
      && y.value.origin.direction == x.value.origin.direction && y.value.origin.origRecipient == x.value.origin.origRecipient
  {
    hide Recalled, ContextOf;
  }

  /** Nothing but losses makes the context go. */
  ghost predicate StaysQueued(lines: seq<Line>, qid: string) {
    forall k :: 0 <= k < |lines| ==> !(lines[k].event.Removed? && lines[k].event.qid == qid) && !(lines[k].event.Deleted? && lines[k].event.qid == qid)
  }

  lemma {:induction false} KeptIsTold(lines: seq<Line>, qid: string)
    requires StaysQueued(lines, qid)
    ensures MemoryAfter(Kept(lines), qid) == Told
  {
    if lines != [] {
      var last, before := lines[|lines| - 1], lines[..|lines| - 1];
      KeptIsTold(before, qid);
      if last.event.Lost? {
        assert Kept(lines) == Kept(before);
      } else {
        var kept := Kept(before) + [last];
        assert Kept(lines) == kept && kept[..|kept| - 1] == Kept(before);
        assert MemoryStep(Told, last.event, last.time, qid) == Told;
      }
    }
  }

  lemma {:induction false} KeptRepeats(lines: seq<Line>, qid: string, shown: Shown)
    requires AllRepeat(lines, qid, shown)
    ensures AllRepeat(Kept(lines), qid, shown)
  {
    hide Repeats;
    if lines != [] {
      KeptRepeats(lines[..|lines| - 1], qid, shown);
    }
  }

  /**
   * A message has been tried once and stays queued; later lines are about other messages, deliver it, or name its sender and
   * size again, and contexts are lost at any points. A delivery to a recipient without a row then offers the row it would
   * offer had nothing been lost, if and only if no retry found the context gone, or the oldest row has no message id,
   * subject, client, user or source and was first seen just when that retry was.
   */
  lemma NewRecipientAfterLossIff(s: State, lines: seq<Line>, e: Event, time: int)
    requires e.Delivery? && DeliveryStatus(e.status, e.transport).Some?
    requires Faithful(s, e.qid) && e.qid in s.contexts && StaysQueued(lines, e.qid)
    requires AllRepeat(lines, e.qid, ShownOf(Rebuilt(s.rows[FirstOf(s.rows, e.qid).value])))
    ensures var oldest, m := s.rows[FirstOf(s.rows, e.qid).value], MemoryAfter(lines, e.qid);
      OfferOf(After(s, lines), e, time) == OfferOf(After(s, Kept(lines)), e, time)
      <==> (m.Blank? ==> oldest.facts == Facts(None, None, oldest.facts.size, None, None, None)
                         && oldest.origin.source.None? && oldest.origin.createdAt == m.since)
  {
    var oldest, m := s.rows[FirstOf(s.rows, e.qid).value], MemoryAfter(lines, e.qid);
    var shown := ShownOf(Rebuilt(oldest));
    RunRemembers(s, lines, e.qid, shown);
    KeptRepeats(lines, e.qid, shown);
    RunRemembers(s, Kept(lines), e.qid, shown);
    KeptIsTold(lines, e.qid);
    hide Remembers, OfferOf, After, Kept, AllRepeat, MemoryAfter, Faithful, FirstOf, DeliveryStatus;
    OffersAgreeIff(After(s, lines), After(s, Kept(lines)), e.qid, shown, m, Told, e, time);
  }

  // ---- when a context is blank ---------------------------------------------------------------------

  /** A line that puts a context in place if there is none. */
  predicate Restores(e: Event, qid: string) {
    || (e.Queued? && e.qid == qid)
    || (e.Delivery? && e.qid == qid && DeliveryStatus(e.status, e.transport).Some?)
  }

  /** Line `f` loses the context, and none after it puts one in place. */
  ghost predicate LostAt(lines: seq<Line>, qid: string, f: int) {
    && 0 <= f < |lines| && Forgets(lines[f].event, qid)
    && forall k :: f < k < |lines| ==> !Restores(lines[k].event, qid)
  }

  /** Line `k` is a retry, at the time `since`, that finds the context gone, and none after it loses the context. */
  ghost predicate RetriedAt(lines: seq<Line>, qid: string, k: int, since: int) {
    && 0 <= k < |lines| && lines[k].event.Queued? && lines[k].event.qid == qid && lines[k].time == since
    && (exists f :: LostAt(lines[..k], qid, f))
    && forall l :: k < l < |lines| ==> !Forgets(lines[l].event, qid)
  }

  lemma {:induction false} GoneIff(lines: seq<Line>, qid: string)
    ensures MemoryAfter(lines, qid).Gone? <==> exists f :: LostAt(lines, qid, f)
  {
    if lines != [] {
      var before, last := lines[..|lines| - 1], lines[|lines| - 1];
      GoneIff(before, qid);
      if f :| LostAt(before, qid, f) && !Restores(last.event, qid) {
        assert LostAt(lines, qid, f);
      }
      if f :| LostAt(lines, qid, f) && f < |before| {
        assert !Restores(last.event, qid) && LostAt(before, qid, f);
      }
      if Forgets(last.event, qid) {
        assert LostAt(lines, qid, |before|);
      }
    }
  }

  lemma RetriedBefore(before: seq<Line>, last: Line, qid: string, k: nat, since: int)
    requires k < |before|
    ensures RetriedAt(before + [last], qid, k, since) <==> RetriedAt(before, qid, k, since) && !Forgets(last.event, qid)
  {
    var lines := before + [last];
    assert lines[..k] == before[..k] && lines[|before|] == last;
    if RetriedAt(before, qid, k, since) && !Forgets(last.event, qid) {
      assert forall l :: k < l < |lines| ==> lines[l] == if l < |before| then before[l] else last;
      assert RetriedAt(lines, qid, k, since);
    }
    if RetriedAt(lines, qid, k, since) {
      assert forall l :: k < l < |before| ==> before[l] == lines[l];
      assert RetriedAt(before, qid, k, since);
    }
  }

  /** The context is blank exactly when a retry found it gone, with no delivery since the loss, and it was not lost again. */
  lemma {:induction false} BlankIff(lines: seq<Line>, qid: string, since: int)
    ensures MemoryAfter(lines, qid) == Blank(since) <==> exists k :: RetriedAt(lines, qid, k, since)
  {
    if lines != [] {
      var before, last := lines[..|lines| - 1], lines[|lines| - 1];
      BlankIff(before, qid, since);
      GoneIff(before, qid);
      assert lines == before + [last];
      if k :| RetriedAt(before, qid, k, since) && !Forgets(last.event, qid) {
        RetriedBefore(before, last, qid, k, since);
      }
      if k :| RetriedAt(lines, qid, k, since) && k < |before| {
        RetriedBefore(before, last, qid, k, since);
      }
      if last.event.Queued? && last.event.qid == qid && MemoryAfter(before, qid).Gone? {
        assert RetriedAt(lines, qid, |before|, last.time);
      }
    }
  }
}
