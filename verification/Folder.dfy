/** A mail folder: its messages by UID, what a search on the server finds, and which messages form one thread. */
module Folder {
  import opened Text
  import opened Graph
  import opened Envelopes

  /**
   * A fetched message; `headerId` is its trimmed Message-ID, empty when it has none. `snippet` is its preview text,
   * which only thread lists read.
   */
  datatype Message = Message(
    headerId: string,
    inReplyTo: string,
    references: seq<string>,
    subject: string,
    date: int,
    from: Option<Address>,
    to: seq<Address>,
    flags: set<string>,
    hasAttachments: bool,
    snippet: string)

  type Mail = map<nat, Message>

  /** References are parsed as bracketed ids, so none of them is empty. */
  ghost predicate Parsed(mail: Mail) {
    forall u :: u in mail ==> forall i :: 0 <= i < |mail[u].references| ==> mail[u].references[i] != ""
  }

  /** The stand-in id of a message without a Message-ID. */
  function StandIn(uid: nat): string {
    "<uid-" + Decimal(uid) + "@local>"
  }

  lemma StandInInjective(u: nat, v: nat)
    requires StandIn(u) == StandIn(v)
    ensures u == v
  {
    var p, s := |"<uid-"|, |"@local>"|;
    var a, b := StandIn(u), StandIn(v);
    assert a[p..|a| - s] == Decimal(u);
    assert b[p..|b| - s] == Decimal(v);
    DecimalInjective(u, v);
  }

  /** The UID a stand-in id names, when the text has that form. */
  function ParseStandIn(id: string): (r: Option<nat>) {
    var p, s := |"<uid-"|, |"@local>"|;
    if |id| > p + s && id[..p] == "<uid-" && id[|id| - s..] == "@local>" && AllDigits(id[p..|id| - s])
    then Some(DigitsValue(id[p..|id| - s]))
    else None
  }

  lemma StandInParses(u: nat)
    ensures ParseStandIn(StandIn(u)) == Some(u)
  {
    var p, s, id := |"<uid-"|, |"@local>"|, StandIn(u);
    assert id[p..|id| - s] == Decimal(u);
    assert id[..p] == "<uid-";
    assert id[|id| - s..] == "@local>";
    DecimalRoundTrip(u);
  }

  function ToEnvelope(uid: nat, m: Message): (e: Envelope)
    ensures e.messageId != "" && e.uid == uid
  {
    Envelope(uid, if m.headerId == "" then StandIn(uid) else m.headerId, m.inReplyTo, m.references, m.subject, m.date,
             m.from, m.to, m.flags, m.hasAttachments, m.snippet)
  }

  ghost function Env(mail: Mail, u: nat): Envelope
    requires u in mail
  {
    ToEnvelope(u, mail[u])
  }

  ghost function AllEnvelopes(mail: Mail): set<Envelope> {
    set u | u in mail :: ToEnvelope(u, mail[u])
  }

  /** The ids a message carries: its own and those it names. */
  function AllIds(e: Envelope): (ids: seq<string>)
    ensures forall id :: id in ids <==> id != "" && (id == e.messageId || id == e.inReplyTo || id in e.references)
  {
    NonEmpty([e.messageId, e.inReplyTo] + e.references)
  }

  /** A header search for `id` finds the message. */
  predicate Carries(m: Message, id: string) {
    id != "" && (m.headerId == id || m.inReplyTo == id || id in m.references)
  }

  lemma CarriesIsNamed(u: nat, m: Message, id: string)
    ensures Carries(m, id) ==> id in AllIds(ToEnvelope(u, m))
    ensures id in AllIds(ToEnvelope(u, m)) ==> Carries(m, id) || (m.headerId == "" && id == StandIn(u))
  {
  }

  predicate OccursAt(part: string, s: string, i: nat) {
    i + |part| <= |s| && s[i..i + |part|] == part
  }

  predicate Within(part: string, s: string) {
    exists i: nat :: i <= |s| && OccursAt(part, s, i)
  }

  /** A subject search for `text` finds the message: the text occurs in its subject, whatever the letter case. */
  predicate Matches(m: Message, text: string) {
    Within(text, Lower(m.subject))
  }

  /** The message is found by the normalized text the lookup searches subjects for. */
  predicate Findable(m: Message) {
    Matches(m, NormalizeSubject(m.subject))
  }

  /**
   * What the server answers. Searches match substrings of headers, so besides the messages asked for they may return any
   * others; `looseIds` and `looseSubjects` are those.
   */
  datatype Imap = Imap(mail: Mail, looseIds: seq<string> -> set<nat>, looseSubjects: seq<string> -> set<nat>)
  {
    ghost predicate Exact() {
      (forall ids :: looseIds(ids) == {}) && (forall subjects :: looseSubjects(subjects) == {})
    }

    function SearchIds(ids: seq<string>): set<nat> {
      (set u | u in mail && exists id :: id in ids && Carries(mail[u], id)) + looseIds(ids)
    }

    function SearchSubjects(subjects: seq<string>): set<nat> {
      (set u | u in mail && exists text :: text in subjects && Matches(mail[u], text)) + looseSubjects(subjects)
    }
  }

  /** The envelopes of those UIDs that still exist, in the order asked for. */
  function Fetch(mail: Mail, uids: seq<nat>): seq<Envelope> {
    if uids == [] then []
    else (if uids[0] in mail then [ToEnvelope(uids[0], mail[uids[0]])] else []) + Fetch(mail, uids[1..])
  }

  // ---- threads of the whole folder --------------------------------------------------

  ghost predicate InThread(mail: Mail, root: string, u: nat) {
    u in mail && Connected(Links(AllEnvelopes(mail)), root, ToEnvelope(u, mail[u]).messageId)
  }

  /** The UIDs of the whole-folder thread that contains the id `root`. */
  ghost function WholeThread(mail: Mail, root: string): set<nat> {
    set u | u in mail && InThread(mail, root, u)
  }

  // ---- what searching from a root can find -------------------------------------------

  /** Messages where a search starts: those carrying the root id, and the one it stands in for. */
  ghost predicate Starts(mail: Mail, root: string, u: nat) {
    u in mail && (Carries(mail[u], root) || ToEnvelope(u, mail[u]).messageId == root)
  }

  /** `u` carries an id of `v`. */
  ghost predicate SharesId(mail: Mail, v: nat, u: nat) {
    v in mail && u in mail && exists id :: id in AllIds(ToEnvelope(v, mail[v])) && Carries(mail[u], id)
  }

  /** The subject fallback links the two messages. */
  ghost predicate CloseMail(mail: Mail, v: nat, u: nat) {
    v in mail && u in mail && Close(TagOf(Env(mail, v)), TagOf(Env(mail, u)))
  }

  /** The subject links among messages that subject searches find. */
  ghost function SubjectSteps(mail: Mail): set<(nat, nat)> {
    set v, u | v in mail && u in mail && Findable(mail[v]) && Findable(mail[u]) && CloseMail(mail, v, u) :: (v, u)
  }

  /** A subject search for `v` and the links among what it finds lead to `u`. */
  ghost predicate LedBySubject(mail: Mail, v: nat, u: nat) {
    exists w :: CloseMail(mail, v, w) && Findable(mail[w]) && Connected(SubjectSteps(mail), w, u)
  }

  /** One subject search and regrouping brings `u` to `v`; read loosely, the search for the subject of `v` matches `u`. */
  ghost predicate SharesSubject(mail: Mail, v: nat, u: nat, loose: bool) {
    && v in mail && u in mail
    && if loose then SubjectKey(Env(mail, v)).Some? && Matches(mail[u], NormalizeSubject(mail[v].subject))
       else LedBySubject(mail, v, u)
  }

  ghost predicate Neighbour(mail: Mail, v: nat, u: nat, loose: bool) {
    SharesId(mail, v, u) || SharesSubject(mail, v, u, loose)
  }

  /** The messages at most `k` search steps away from the root id. */
  ghost function Ball(mail: Mail, root: string, k: nat, loose: bool := false): (r: set<nat>)
    ensures r <= mail.Keys
  {
    if k == 0 then {}
    else
      var inner := Ball(mail, root, k - 1, loose);
      set u | u in mail && (u in inner || Starts(mail, root, u) || exists v :: v in inner && Neighbour(mail, v, u, loose))
  }
}
