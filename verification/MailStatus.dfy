/** What the status of a row follows from: the lines about its recipient, and those that close the message. */
module MailStatus {
  import opened Text
  import opened MailLog

  // ---- lines that report on a recipient --------------------------------------------------------

  /** The line reports on the recipient of the message, in this word. */
  predicate ReportsAs(e: Event, key: Key, word: string) {
    match e
    case Delivery(qid, transport, to, _, _, _, status, _, _) =>
      && key == Key(Some(qid), Cut(to, 254))
      && (|| (status == "sent" && (transport == "lmtp" || transport == "virtual" || transport == "local") && word == "delivered")
          || (status == "sent" && transport != "lmtp" && transport != "virtual" && transport != "local" && word == "sent")
          || ((status == "deferred" || status == "bounced" || status == "expired") && word == status))
    case Reject(qid, _, _, _, _, _, _, rcpt, _, _) =>
      key == Key(qid, Cut(if rcpt.None? then "" else rcpt.value, 254)) && word == "rejected"
    case _ => false
  }

  ghost predicate Reports(e: Event, key: Key) {
    exists word :: ReportsAs(e, key, word)
  }

  /** The line closes the message, in this word. */
  predicate ClosesAs(e: Event, qid: string, word: string) {
    (e.Expired? && e.qid == qid && word == "expired") || (e.Deleted? && e.qid == qid && word == "deleted")
  }

  predicate Closes(e: Event, qid: string) {
    (e.Expired? || e.Deleted?) && e.qid == qid
  }

  /** The outcome the line tells. */
  function OutcomeOf(e: Event): Outcome {
    match e
    case Delivery(_, _, _, _, relay, dsn, _, detail, _) =>
      Outcome(if relay == "none" then None else Some(Cut(relay, 255)), Some(dsn), detail)
    case Reject(_, stage, _, _, code, text, _, _, _, _) => Outcome(None, code, Some(stage + ": " + text))
    case _ => Outcome(None, None, None)
  }

  lemma OfferIsReport(s: State, e: Event, time: int, key: Key)
    ensures OfferOf(s, e, time).Some? && OfferOf(s, e, time).value.key == key <==> Reports(e, key)
    ensures OfferOf(s, e, time).Some? && OfferOf(s, e, time).value.key == key ==>
      var offer := OfferOf(s, e, time).value;
      ReportsAs(e, key, offer.status) && offer.updatedAt == time && offer.outcome == OutcomeOf(e) && offer.attempts == 1
  {
    hide Recalled, ContextOf, RejectDirection, Found, SourceOf;
    var offer := OfferOf(s, e, time);
    if offer.Some? && offer.value.key == key {
      assert ReportsAs(e, key, offer.value.status);
    }
  }

  // ---- the line that settles a row ------------------------------------------------------------

  /** Line `m` is the last to report on the recipient, in this word. */
  ghost predicate LastReport(lines: seq<Line>, key: Key, m: int, word: string) {
    && 0 <= m < |lines| && ReportsAs(lines[m].event, key, word)
    && forall k :: m < k < |lines| ==> !Reports(lines[k].event, key)
  }

  /**
   * Line `l` settles the row in the word `final`: the last report does, unless that put the mail off and the message was
   * closed since; then the first line that closed it does.
   */
  ghost predicate Settles(lines: seq<Line>, key: Key, m: int, l: int, final: string)
    requires key.queueId.Some?
  {
    var qid := key.queueId.value;
    || (l == m && LastReport(lines, key, m, final)
        && (final == "deferred" ==> forall k :: m < k < |lines| ==> !Closes(lines[k].event, qid)))
    || (LastReport(lines, key, m, "deferred") && m < l < |lines| && ClosesAs(lines[l].event, qid, final)
        && forall k :: m < k < l ==> !Closes(lines[k].event, qid))
  }

  ghost predicate Shows(row: Row, lines: seq<Line>, m: int, l: int) {
    && 0 <= m < |lines| && 0 <= l < |lines|
    && row.updatedAt == lines[l].time && row.outcome == OutcomeOf(lines[m].event)
  }

  lemma OneReportEach(e: Event, key: Key, word: string, other: string)
    requires ReportsAs(e, key, word) && ReportsAs(e, key, other)
    ensures word == other
  {
  }

  /** There is one settling line at most, and one word. */
  lemma SettledOnce(lines: seq<Line>, key: Key, m: int, l: int, final: string, m': int, l': int, final': string)
    requires key.queueId.Some? && Settles(lines, key, m, l, final) && Settles(lines, key, m', l', final')
    ensures m == m' && l == l' && final == final'
  {
    assert Reports(lines[m].event, key) && Reports(lines[m'].event, key);
    forall word, other | ReportsAs(lines[m].event, key, word) && ReportsAs(lines[m].event, key, other)
      ensures word == other
    {
      OneReportEach(lines[m].event, key, word, other);
    }
  }

  lemma SettlesLater(lines: seq<Line>, last: Line, key: Key, m: int, l: int, final: string)
    requires key.queueId.Some? && Settles(lines, key, m, l, final) && !Reports(last.event, key)
    requires final == "deferred" ==> !Closes(last.event, key.queueId.value)
    ensures Settles(lines + [last], key, m, l, final)
  {
    var more := lines + [last];
    assert more[|lines|] == last && forall k :: 0 <= k < |lines| ==> more[k] == lines[k];
    hide ReportsAs, Reports, Closes, ClosesAs;
    if LastReport(lines, key, m, final) && l == m {
      assert LastReport(more, key, m, final);
    } else {
      assert LastReport(more, key, m, "deferred");
    }
  }

  lemma SettlesNow(lines: seq<Line>, last: Line, key: Key, word: string)
    requires key.queueId.Some? && ReportsAs(last.event, key, word)
    ensures Settles(lines + [last], key, |lines|, |lines|, word)
  {
    assert (lines + [last])[|lines|] == last;
  }

  lemma ClosesNow(lines: seq<Line>, last: Line, key: Key, m: int, l: int, word: string)
    requires key.queueId.Some? && Settles(lines, key, m, l, "deferred") && ClosesAs(last.event, key.queueId.value, word)
    ensures Settles(lines + [last], key, m, |lines|, word)
  {
    var more := lines + [last];
    assert more[|lines|] == last && forall k :: 0 <= k < |lines| ==> more[k] == lines[k];
    assert !Reports(last.event, key);
    hide ReportsAs, Reports;
    assert LastReport(more, key, m, "deferred");
  }

  // ---- every run ------------------------------------------------------------------------------

  /** Every row of the key is settled by some line, in that word and at that time, with the outcome of the last report. */
  ghost predicate AllSettled(rows: seq<Row>, lines: seq<Line>, key: Key)
    requires key.queueId.Some?
  {
    forall i :: 0 <= i < |rows| && rows[i].key == key ==> Settled(rows[i], lines, key)
  }

  ghost predicate Settled(row: Row, lines: seq<Line>, key: Key)
    requires key.queueId.Some?
  {
    exists m, l :: Settles(lines, key, m, l, row.status) && Shows(row, lines, m, l)
  }

  lemma UnreportedStays(row: Row, lines: seq<Line>, last: Line, key: Key)
    requires key.queueId.Some? && Settled(row, lines, key) && !Reports(last.event, key)
    requires row.status == "deferred" ==> !Closes(last.event, key.queueId.value)
    ensures Settled(row, lines + [last], key)
  {
    hide Settles;
    var m, l :| Settles(lines, key, m, l, row.status) && Shows(row, lines, m, l);
    SettlesLater(lines, last, key, m, l, row.status);
    assert Shows(row, lines + [last], m, l);
  }

  lemma ReportedNow(row: Row, lines: seq<Line>, last: Line, key: Key)
    requires key.queueId.Some? && ReportsAs(last.event, key, row.status)
    requires row.updatedAt == last.time && row.outcome == OutcomeOf(last.event)
    ensures Settled(row, lines + [last], key)
  {
    SettlesNow(lines, last, key, row.status);
    assert Shows(row, lines + [last], |lines|, |lines|);
  }

  lemma ClosedNow(row: Row, lines: seq<Line>, last: Line, key: Key, word: string)
    requires key.queueId.Some? && Settled(row, lines, key) && row.status == "deferred"
    requires ClosesAs(last.event, key.queueId.value, word)
    ensures Settled(row.(status := word, updatedAt := last.time), lines + [last], key)
  {
    hide Settles;
    var m, l :| Settles(lines, key, m, l, "deferred") && Shows(row, lines, m, l);
    ClosesNow(lines, last, key, m, l, word);
    assert Shows(row.(status := word, updatedAt := last.time), lines + [last], m, |lines|);
  }

  ghost predicate Once(rows: seq<Row>, key: Key) {
    forall i, j :: 0 <= i < j < |rows| ==> !(rows[i].key == key == rows[j].key)
  }

  lemma OfferedStep(s: State, lines: seq<Line>, last: Line, key: Key)
    requires key.queueId.Some? && AllSettled(s.rows, lines, key) && OfferOf(s, last.event, last.time).Some?
    requires Once(s.rows, key)
    ensures AllSettled(Applied(s, last.event, last.time).rows, lines + [last], key)
  {
    var offer, after := OfferOf(s, last.event, last.time).value, Applied(s, last.event, last.time).rows;
    var at := Collision(s.rows, offer.key);
    RowsAfter(s, last.event, last.time);
    OfferIsReport(s, last.event, last.time, key);
    OfferIsFor(s, s, last.event, last.time);
    assert !Closes(last.event, key.queueId.value);
    hide Applied, OfferOf, Settled, Reports, ReportsAs, OutcomeOf, Closes, Coalesced;
    forall i | 0 <= i < |after| && after[i].key == key
      ensures Settled(after[i], lines + [last], key)
    {
      if offer.key != key {
        UnreportedStays(after[i], lines, last, key);
      } else {
        assert i == if at.Some? then at.value else |s.rows|;
        ReportedNow(after[i], lines, last, key);
      }
    }
  }

  lemma ClosingStep(s: State, lines: seq<Line>, last: Line, key: Key, word: string)
    requires key.queueId.Some? && AllSettled(s.rows, lines, key)
    requires (last.event.Expired? && word == "expired") || (last.event.Deleted? && word == "deleted")
    ensures AllSettled(Restated(s.rows, last.event.qid, word, last.time), lines + [last], key)
  {
    var after := Restated(s.rows, last.event.qid, word, last.time);
    assert !Reports(last.event, key);
    hide Settled, Reports;
    forall i | 0 <= i < |after| && after[i].key == key
      ensures Settled(after[i], lines + [last], key)
    {
      if Closes(last.event, key.queueId.value) && s.rows[i].status == "deferred" {
        ClosedNow(s.rows[i], lines, last, key, word);
      } else {
        UnreportedStays(s.rows[i], lines, last, key);
      }
    }
  }

  lemma OtherStep(s: State, lines: seq<Line>, last: Line, key: Key)
    requires key.queueId.Some? && AllSettled(s.rows, lines, key)
    requires OfferOf(s, last.event, last.time).None? && !last.event.Expired? && !last.event.Deleted?
    ensures AllSettled(Applied(s, last.event, last.time).rows, lines + [last], key)
  {
    RowsAfter(s, last.event, last.time);
    OfferIsReport(s, last.event, last.time, key);
    hide Applied, OfferOf, Settled, Reports;
    forall i | 0 <= i < |s.rows| && s.rows[i].key == key
      ensures Settled(s.rows[i], lines + [last], key)
    {
      UnreportedStays(s.rows[i], lines, last, key);
    }
  }

  lemma RowsAreOnce(lines: seq<Line>, key: Key)
    requires key.queueId.Some?
    ensures Once(After(NEW, lines).rows, key)
  {
    RowsTellTheirHistory(lines, key);
    hide After, OffersTo;
  }

  /**
   * In every run the status of a recipient's row follows from the lines alone: it is the word of the last line that reported
   * on the recipient, unless that was "deferred" and the message has been closed since; then it is "expired" or "deleted",
   * as the first line said that closed it. The row carries that line's time and the outcome of the last report.
   */
  lemma {:induction false} StatusFollows(lines: seq<Line>, key: Key)
    requires key.queueId.Some?
    ensures AllSettled(After(NEW, lines).rows, lines, key)
  {
    if lines != [] {
      var last, before := lines[|lines| - 1], lines[..|lines| - 1];
      assert lines == before + [last];
      StatusFollows(before, key);
      RowsAreOnce(before, key);
      var s := After(NEW, before);
      RowsAfter(s, last.event, last.time);
      hide AllSettled, Once, Applied, OfferOf, Restated;
      if OfferOf(s, last.event, last.time).Some? {
        OfferedStep(s, before, last, key);
      } else if last.event.Expired? {
        ClosingStep(s, before, last, key, "expired");
      } else if last.event.Deleted? {
        ClosingStep(s, before, last, key, "deleted");
      } else {
        OtherStep(s, before, last, key);
      }
    }
  }

  // ---- how often ------------------------------------------------------------------------------

  /** The lines that report on the recipient. */
  ghost function ReportsOn(lines: seq<Line>, key: Key): set<nat> {
    set k: nat | k < |lines| && Reports(lines[k].event, key)
  }

  lemma ReportsOnMore(lines: seq<Line>, last: Line, key: Key)
    ensures |ReportsOn(lines + [last], key)| == |ReportsOn(lines, key)| + if Reports(last.event, key) then 1 else 0
  {
    hide Reports;
    var n, more := |lines|, lines + [last];
    assert more[n] == last && forall k: nat :: k < n ==> more[k] == lines[k];
    assert ReportsOn(more, key) == ReportsOn(lines, key) + if Reports(last.event, key) then {n} else {};
  }

  lemma OffersToMore(lines: seq<Line>, last: Line, key: Key)
    ensures |OffersTo(lines + [last], key)| == |OffersTo(lines, key)| + if Reports(last.event, key) then 1 else 0
  {
    OfferIsReport(After(NEW, lines), last.event, last.time, key);
    hide After, OfferOf, Reports;
    assert (lines + [last])[..|lines|] == lines;
  }

  lemma {:induction false} OffersAreReports(lines: seq<Line>, key: Key)
    ensures |OffersTo(lines, key)| == |ReportsOn(lines, key)|
  {
    if lines != [] {
      var last, before := lines[|lines| - 1], lines[..|lines| - 1];
      OffersAreReports(before, key);
      assert lines == before + [last];
      hide *;
      OffersToMore(before, last, key);
      ReportsOnMore(before, last, key);
    }
  }

  lemma RecordsTell(rows: seq<Row>, key: Key, offers: seq<Row>)
    requires Records(rows, key, offers)
    ensures (exists i :: 0 <= i < |rows| && rows[i].key == key) <==> offers != []
    ensures forall i :: 0 <= i < |rows| && rows[i].key == key ==> rows[i].attempts == |offers|
  {
    hide FirstFacts;
    if offers != [] {
      var i :| RecordedAt(rows, key, offers, i);
    }
  }

  /** A recipient has a row exactly when some line reported on it, and its attempts are the lines that did. */
  lemma RowIffReported(lines: seq<Line>, key: Key)
    requires key.queueId.Some?
    ensures (exists i :: 0 <= i < |After(NEW, lines).rows| && After(NEW, lines).rows[i].key == key)
       <==> ReportsOn(lines, key) != {}
    ensures forall i :: 0 <= i < |After(NEW, lines).rows| && After(NEW, lines).rows[i].key == key ==>
      After(NEW, lines).rows[i].attempts == |ReportsOn(lines, key)|
  {
    RowsTellTheirHistory(lines, key);
    OffersAreReports(lines, key);
    hide *;
    RecordsTell(After(NEW, lines).rows, key, OffersTo(lines, key));
    assert ReportsOn(lines, key) == {} <==> |ReportsOn(lines, key)| == 0;
  }
}
