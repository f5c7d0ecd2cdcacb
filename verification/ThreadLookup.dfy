/** Opening a thread: collecting its messages from one root id by rounds of searches. */
module ThreadLookup {
  import opened Text
  import opened Graph
  import opened Sorting
  import opened Envelopes
  import opened Conversations
  import opened ConversationLaws
  import opened Folder
  import opened ThreadClosure
  import opened SearchRounds
  import Grouping
  import SubjectFallback
  import ThreadIds

  const MAX_EXPAND_ROUNDS := 8
  const SEARCH_CHUNK := 25

  // ---- one thread of a list ---------------------------------------------------------

  predicate Mentions(e: Envelope, root: string) {
    e.messageId == root || e.inReplyTo == root || root in e.references
  }

  lemma MentionConnects(envs: seq<Envelope>, root: string, e: Envelope)
    requires e in envs && Mentions(e, root) && root != ""
    ensures Connected(Links(Elements(envs)), root, e.messageId)
  {
    var links := Links(Elements(envs));
    if e.messageId == root {
      Reflexive(links, root);
    } else {
      assert root in NamedIds(e);
      assert e in Elements(envs);
      assert (e.messageId, root) in IdLinks(Elements(envs));
      Step(links, root, e.messageId);
    }
  }

  /** An id no message mentions is connected to nothing. */
  lemma UnmentionedIsAlone(envs: seq<Envelope>, root: string)
    requires forall e :: e in envs ==> !Mentions(e, root)
    ensures Conversation(envs, root) == []
  {
    var links := Links(Elements(envs));
    forall b
      ensures !Adjacent(links, root, b)
    {
      NoLinkFrom(envs, root, b);
    }
    forall e | e in envs
      ensures !Connected(links, root, e.messageId)
    {
      if Connected(links, root, e.messageId) {
        UnlinkedIsAlone(links, root, e.messageId);
      }
    }
    Grouping.NoneSelected(envs, Component(Elements(envs), root));
  }

  lemma NoLinkFrom(envs: seq<Envelope>, root: string, b: string)
    requires forall e :: e in envs ==> !Mentions(e, root)
    ensures !Adjacent(Links(Elements(envs)), root, b)
  {
  }

  /** The row of a message that mentions the root lists the conversation around the root. */
  lemma RowAroundRoot(envs: seq<Envelope>, folder: string, root: string, e: Envelope, k: nat)
    requires DistinctUids(envs) && e in envs && Mentions(e, root) && root != ""
    requires k < |Threads(envs, folder)| && e.uid in Threads(envs, folder)[k].uids
    ensures Threads(envs, folder)[k].uids == Uids(Conversation(envs, root))
  {
    var links := Links(Elements(envs));
    var h := ThreadHasHead(envs, folder, k);
    ListedIffConnected(envs, h.messageId, e);
    MentionConnects(envs, root, e);
    Symmetric(links, h.messageId, e.messageId);
    Transitive(links, root, e.messageId, h.messageId);
    SameComponent(links, root, h.messageId);
    assert Component(Elements(envs), root) == Component(Elements(envs), h.messageId);
  }

  predicate Lists(t: ThreadSummary, seeds: set<nat>) {
    exists u :: u in t.uids && u in seeds
  }

  /** The first row that lists one of the seeds. */
  method FirstListing(threads: seq<ThreadSummary>, seeds: set<nat>) returns (at: Option<nat>)
    ensures at.Some? ==> at.value < |threads| && Lists(threads[at.value], seeds)
    ensures at.None? ==> forall i :: 0 <= i < |threads| ==> !Lists(threads[i], seeds)
  {
    for k := 0 to |threads|
      invariant forall i :: 0 <= i < k ==> !Lists(threads[i], seeds)
    {
      if Lists(threads[k], seeds) {
        return Some(k);
      }
    }
    return None;
  }

  function Seeds(envs: seq<Envelope>, root: string): set<nat> {
    set e | e in envs && Mentions(e, root) :: e.uid
  }

  lemma ListedRowIsAroundRoot(envs: seq<Envelope>, folder: string, root: string, k: nat)
    requires DistinctUids(envs) && root != ""
    requires k < |Threads(envs, folder)| && Lists(Threads(envs, folder)[k], Seeds(envs, root))
    ensures Threads(envs, folder)[k].uids == Uids(Conversation(envs, root))
  {
    hide Threads, Conversation;
    var u :| u in Threads(envs, folder)[k].uids && u in Seeds(envs, root);
    var e :| e in envs && Mentions(e, root) && e.uid == u;
    RowAroundRoot(envs, folder, root, e, k);
  }

  lemma NoRowMeansNoMessages(envs: seq<Envelope>, folder: string, root: string)
    requires DistinctUids(envs)
    requires forall i :: 0 <= i < |Threads(envs, folder)| ==> !Lists(Threads(envs, folder)[i], Seeds(envs, root))
    ensures Conversation(envs, root) == []
  {
    hide Threads, Conversation;
    forall e | e in envs
      ensures !Mentions(e, root)
    {
      var k := EveryMessageIsListed(envs, folder, e);
      assert !Lists(Threads(envs, folder)[k], Seeds(envs, root));
    }
    UnmentionedIsAlone(envs, root);
  }

  /** The UIDs of the group that contains or references `root`. */
  method ThreadOf(envs: seq<Envelope>, folder: string, root: string) returns (uids: seq<nat>)
    requires AllWellFormed(envs) && DistinctUids(envs) && root != ""
    ensures uids == Uids(Conversation(envs, root))
  {
    hide Threads, Conversation, Lists, Seeds;
    var threads := Grouping.GroupThreads(envs, folder);
    var at := FirstListing(threads, Seeds(envs, root));
    if at.Some? {
      ListedRowIsAroundRoot(envs, folder, root, at.value);
      uids := threads[at.value].uids;
    } else {
      NoRowMeansNoMessages(envs, folder, root);
      uids := [];
    }
  }

  /** Looking a listed thread up by its root id gives back exactly its messages. */
  lemma LookupFindsRow(envs: seq<Envelope>, folder: string, k: nat)
    requires AllWellFormed(envs) && DistinctUids(envs) && k < |Threads(envs, folder)|
    ensures exists root :: root != "" && ThreadIds.RootFromThreadId(Threads(envs, folder)[k].id) == Some(root)
                        && Uids(Conversation(envs, root)) == Threads(envs, folder)[k].uids
  {
    var h := ThreadHasHead(envs, folder, k);
    var c := Conversation(envs, h.messageId);
    var root := RootId(c);
    ConversationMembers(envs, h.messageId);
    assert c[0] in c && WellFormed(c[0]);
    RootIsConnected(envs, h.messageId);
    SameComponent(Links(Elements(envs)), h.messageId, root);
    assert Component(Elements(envs), root) == Component(Elements(envs), h.messageId);
    ThreadIds.ThreadIdRoundTrip(root);
  }

  // ---- searching --------------------------------------------------------------------

  function Flatten<T>(groups: seq<seq<T>>): seq<T> {
    if groups == [] then [] else Flatten(groups[..|groups| - 1]) + groups[|groups| - 1]
  }

  /** Splits a list into pieces of at most `size`. */
  method Chunk<T>(list: seq<T>, size: nat) returns (out: seq<seq<T>>)
    requires size > 0
    ensures Flatten(out) == list
    ensures forall g :: g in out ==> 0 < |g| <= size
  {
    out := [];
    var i := 0;
    while i < |list|
      invariant 0 <= i
      invariant Flatten(out) == list[..if i < |list| then i else |list|]
      invariant forall g :: g in out ==> 0 < |g| <= size
    {
      var end := if i + size < |list| then i + size else |list|;
      var piece := list[i..end];
      assert (out + [piece])[..|out|] == out;
      assert list[..i] + piece == list[..end];
      out := out + [piece];
      i := i + size;
    }
  }

  ghost predicate CarriesAny(m: Message, ids: seq<string>) {
    exists id :: id in ids && Carries(m, id)
  }

  ghost predicate MatchesAny(m: Message, subjects: seq<string>) {
    exists text :: text in subjects && Matches(m, text)
  }

  /** The messages that carry one of the ids or whose subject contains one of the texts. */
  ghost function Asked(mail: Mail, ids: seq<string>, subjects: seq<string>): set<nat> {
    set u | u in mail && (CarriesAny(mail[u], ids) || MatchesAny(mail[u], subjects))
  }

  lemma NothingAsked(mail: Mail)
    ensures Asked(mail, [], []) == {}
  {
  }

  lemma AskedIdsAppend(mail: Mail, a: seq<string>, b: seq<string>)
    ensures Asked(mail, a + b, []) == Asked(mail, a, []) + Asked(mail, b, [])
  {
    hide Matches;
    forall u | u in mail
      ensures CarriesAny(mail[u], a + b) <==> CarriesAny(mail[u], a) || CarriesAny(mail[u], b)
    {
      CarriesAnyAppend(mail[u], a, b);
    }
  }

  /** A search finds at least the messages that carry an id asked for, an exact one no others. */
  lemma SearchedIds(server: Imap, ids: seq<string>)
    ensures Asked(server.mail, ids, []) <= server.SearchIds(ids)
    ensures server.Exact() ==> server.SearchIds(ids) == Asked(server.mail, ids, [])
  {
    hide Matches, Carries;
  }

  lemma AskedSubjectsAppend(mail: Mail, a: seq<string>, b: seq<string>)
    ensures Asked(mail, [], a + b) == Asked(mail, [], a) + Asked(mail, [], b)
  {
    hide Carries;
    forall u | u in mail
      ensures MatchesAny(mail[u], a + b) <==> MatchesAny(mail[u], a) || MatchesAny(mail[u], b)
    {
      MatchesAnyAppend(mail[u], a, b);
    }
  }

  lemma MatchesAnyAppend(m: Message, a: seq<string>, b: seq<string>)
    ensures MatchesAny(m, a + b) <==> MatchesAny(m, a) || MatchesAny(m, b)
  {
    hide Matches;
    if MatchesAny(m, a) {
      var text :| text in a && Matches(m, text);
      assert text in a + b;
    }
    if MatchesAny(m, b) {
      var text :| text in b && Matches(m, text);
      assert text in a + b;
    }
  }

  lemma SearchedSubjects(server: Imap, subjects: seq<string>)
    ensures Asked(server.mail, [], subjects) <= server.SearchSubjects(subjects)
    ensures server.Exact() ==> server.SearchSubjects(subjects) == Asked(server.mail, [], subjects)
  {
    hide Matches, Carries;
  }

  /** All header searches of one round. */
  method FindIds(server: Imap, ids: seq<string>) returns (found: set<nat>)
    ensures Asked(server.mail, ids, []) <= found
    ensures server.Exact() ==> found == Asked(server.mail, ids, [])
  {
    hide Asked;
    found := {};
    NothingAsked(server.mail);
    var groups := Chunk(ids, SEARCH_CHUNK);
    for k := 0 to |groups|
      invariant Asked(server.mail, Flatten(groups[..k]), []) <= found
      invariant server.Exact() ==> found == Asked(server.mail, Flatten(groups[..k]), [])
    {
      assert groups[..k + 1][..k] == groups[..k];
      var before := Flatten(groups[..k]);
      assert Flatten(groups[..k + 1]) == before + groups[k];
      AskedIdsAppend(server.mail, before, groups[k]);
      SearchedIds(server, groups[k]);
      found := found + server.SearchIds(groups[k]);
    }
    assert groups[..|groups|] == groups;
  }

  lemma CarriesAnyAppend(m: Message, a: seq<string>, b: seq<string>)
    ensures CarriesAny(m, a + b) <==> CarriesAny(m, a) || CarriesAny(m, b)
  {
    if CarriesAny(m, a) {
      var id :| id in a && Carries(m, id);
      assert id in a + b;
    }
    if CarriesAny(m, b) {
      var id :| id in b && Carries(m, id);
      assert id in a + b;
    }
  }

  /** All subject searches of one round. */
  method FindSubjects(server: Imap, subjects: seq<string>) returns (found: set<nat>)
    ensures Asked(server.mail, [], subjects) <= found
    ensures server.Exact() ==> found == Asked(server.mail, [], subjects)
  {
    hide Asked;
    found := {};
    NothingAsked(server.mail);
    var groups := Chunk(subjects, SEARCH_CHUNK);
    for k := 0 to |groups|
      invariant Asked(server.mail, [], Flatten(groups[..k])) <= found
      invariant server.Exact() ==> found == Asked(server.mail, [], Flatten(groups[..k]))
    {
      assert groups[..k + 1][..k] == groups[..k];
      var before := Flatten(groups[..k]);
      assert Flatten(groups[..k + 1]) == before + groups[k];
      AskedSubjectsAppend(server.mail, before, groups[k]);
      SearchedSubjects(server, groups[k]);
      found := found + server.SearchSubjects(groups[k]);
    }
    assert groups[..|groups|] == groups;
  }

  // ---- state of the rounds ----------------------------------------------------------

  function Identity(n: nat): int {
    n
  }

  /** The messages known so far come from the folder, each once. */
  ghost predicate FromFolder(mail: Mail, known: seq<Envelope>) {
    && DistinctUids(known)
    && forall e :: e in known ==> e.uid in mail && e == Env(mail, e.uid)
  }

  /** Everything the folder has for the given ids and subjects is known. */
  ghost predicate Complete(mail: Mail, known: seq<Envelope>, ids: set<string>, subjects: set<string>) {
    && (forall u, id {:trigger Carries(mail[u], id)} :: u in mail && id in ids && Carries(mail[u], id) ==> Env(mail, u) in known)
    && (forall u, text {:trigger Matches(mail[u], text)} :: u in mail && text in subjects && Matches(mail[u], text) ==> Env(mail, u) in known)
  }

  /** Every id and subject of the thread found so far is among the given ones. */
  ghost predicate Covered(known: seq<Envelope>, root: string, ids: set<string>, subjects: set<string>) {
    forall e :: e in Conversation(known, root) ==>
      && (forall id :: id in AllIds(e) ==> id in ids)
      && (SubjectKey(e).Some? ==> NormalizeSubject(e.subject) in subjects)
  }

  /** The messages of `s` are known and belong to the thread found so far. */
  ghost predicate Collected(mail: Mail, known: seq<Envelope>, root: string, s: set<nat>) {
    forall u :: u in s ==> u in mail && Env(mail, u) in Conversation(known, root)
  }

  /** If a message lacks an id and the root is its stand-in, it is known. */
  ghost predicate StandInKnown(mail: Mail, known: seq<Envelope>, root: string) {
    forall u :: u in mail && mail[u].headerId == "" && StandIn(u) == root ==> Env(mail, u) in known
  }

  /** An id worth searching: the root itself, or one a known message carries. */
  ghost predicate WantedId(known: seq<Envelope>, root: string, id: string) {
    id == root || exists e :: e in known && id in AllIds(e)
  }

  ghost predicate WantedSubject(known: seq<Envelope>, s: string) {
    exists e :: e in known && SubjectKey(e).Some? && NormalizeSubject(e.subject) == s
  }

  /** The terms still to be searched belong to known messages, except for the root itself. */
  ghost predicate Pending(known: seq<Envelope>, root: string, ids: seq<string>, subjects: seq<string>) {
    && (forall id {:trigger WantedId(known, root, id)} :: id in ids ==> WantedId(known, root, id))
    && (forall s {:trigger WantedSubject(known, s)} :: s in subjects ==> WantedSubject(known, s))
  }

  // ---- progress of a round ----------------------------------------------------------

  lemma KnowingMoreKeepsMembers(known: seq<Envelope>, more: seq<Envelope>, root: string, e: Envelope)
    requires forall x :: x in known ==> x in more
    requires e in Conversation(known, root)
    ensures e in Conversation(more, root)
  {
    ConversationMembers(known, root);
    ConversationMembers(more, root);
    LinksMonotone(Elements(known), Elements(more));
    Monotone(Links(Elements(known)), Links(Elements(more)), root, e.messageId);
  }

  lemma MentioningJoins(known: seq<Envelope>, root: string, e: Envelope, f: Envelope, id: string)
    requires e in Conversation(known, root) && f in known
    requires id in AllIds(e) && id in AllIds(f)
    ensures f in Conversation(known, root)
  {
    var links := Links(Elements(known));
    ConversationMembers(known, root);
    MentionConnects(known, id, e);
    MentionConnects(known, id, f);
    Symmetric(links, id, e.messageId);
    Transitive(links, root, e.messageId, id);
    Transitive(links, root, id, f.messageId);
  }

  lemma CloseJoins(known: seq<Envelope>, root: string, e: Envelope, f: Envelope)
    requires e in Conversation(known, root) && f in known && Close(TagOf(e), TagOf(f))
    ensures f in Conversation(known, root)
  {
    var links := Links(Elements(known));
    ConversationMembers(known, root);
    SubjectFallback.SubjectLinkOf(Elements(known), e, f);
    Step(links, e.messageId, f.messageId);
    Transitive(links, root, e.messageId, f.messageId);
  }

  lemma StartJoins(mail: Mail, known: seq<Envelope>, root: string, u: nat, ids: set<string>, subjects: set<string>)
    requires root != "" && root in ids && Complete(mail, known, ids, subjects) && StandInKnown(mail, known, root)
    requires Starts(mail, root, u)
    ensures Env(mail, u) in Conversation(known, root)
  {
    var e := Env(mail, u);
    if Carries(mail[u], root) {
      assert e in known;
    } else {
      assert mail[u].headerId == "" && StandIn(u) == root;
    }
    MentionConnects(known, root, e);
    ConversationMembers(known, root);
  }

  lemma NeighbourJoins(mail: Mail, known: seq<Envelope>, more: seq<Envelope>, root: string, v: nat, u: nat,
                       ids: set<string>, subjects: set<string>)
    requires v in mail && Env(mail, v) in Conversation(known, root) && Covered(known, root, ids, subjects)
    requires Complete(mail, more, ids, subjects) && forall e :: e in known ==> e in more
    requires Neighbour(mail, v, u, false)
    ensures u in mail && Env(mail, u) in Conversation(more, root)
  {
    var e, f := Env(mail, v), Env(mail, u);
    KnowingMoreKeepsMembers(known, more, root, e);
    if SharesId(mail, v, u) {
      var id :| id in AllIds(e) && Carries(mail[u], id);
      CarriesIsNamed(u, mail[u], id);
      MentioningJoins(more, root, e, f, id);
    } else {
      SubjectLeadJoins(mail, more, root, v, u, subjects);
    }
  }

  ghost predicate SubjectsKnown(mail: Mail, known: seq<Envelope>, subjects: set<string>) {
    forall u, text {:trigger Matches(mail[u], text)} :: u in mail && text in subjects && Matches(mail[u], text) ==> Env(mail, u) in known
  }

  ghost predicate Reached(mail: Mail, known: seq<Envelope>, root: string, text: string, u: nat) {
    u in mail && Env(mail, u) in Conversation(known, root) && NormalizeSubject(mail[u].subject) == text
  }

  lemma CloseIsReached(mail: Mail, known: seq<Envelope>, root: string, text: string, v: nat, u: nat, subjects: set<string>)
    requires Reached(mail, known, root, text, v) && CloseMail(mail, v, u) && Findable(mail[u]) && text in subjects
    requires SubjectsKnown(mail, known, subjects)
    ensures Reached(mail, known, root, text, u)
  {
    SameKeySameSubject(Env(mail, v), Env(mail, u));
    hide NormalizeSubject, Conversation;
    CloseJoins(known, root, Env(mail, v), Env(mail, u));
  }

  lemma StepIsClose(mail: Mail, a: nat, b: nat)
    requires Adjacent(SubjectSteps(mail), a, b)
    ensures CloseMail(mail, a, b) && Findable(mail[b])
  {
    hide SubjectKey, Findable;
    if (a, b) in SubjectSteps(mail) {
    } else {
      assert CloseMail(mail, b, a);
    }
  }

  /** What one subject search and regrouping brings in: the search finds every message on the way. */
  lemma SubjectLeadJoins(mail: Mail, known: seq<Envelope>, root: string, v: nat, u: nat, subjects: set<string>)
    requires v in mail && Env(mail, v) in Conversation(known, root) && LedBySubject(mail, v, u)
    requires SubjectsKnown(mail, known, subjects)
    requires SubjectKey(Env(mail, v)).Some? ==> NormalizeSubject(mail[v].subject) in subjects
    ensures u in mail && Env(mail, u) in Conversation(known, root)
  {
    hide Conversation, SubjectSteps, NormalizeSubject, SubjectsKnown, Findable, Connected, Adjacent;
    var text, steps := NormalizeSubject(mail[v].subject), SubjectSteps(mail);
    var w :| CloseMail(mail, v, w) && Findable(mail[w]) && Connected(steps, w, u);
    assert SubjectKey(Env(mail, v)).Some? && Reached(mail, known, root, text, v);
    CloseIsReached(mail, known, root, text, v, w, subjects);
    hide Reached, CloseMail;
    var nodes := iset x: nat {:trigger Reached(mail, known, root, text, x)} | Reached(mail, known, root, text, x);
    forall a, b | Adjacent(steps, a, b) && a in nodes
      ensures b in nodes
    {
      StepIsClose(mail, a, b);
      CloseIsReached(mail, known, root, text, a, b, subjects);
    }
    ClosedContains(steps, nodes, w, u);
    assert Reached(mail, known, root, text, u);
    ReachedIsKnown(mail, known, root, text, u);
  }

  lemma ReachedIsKnown(mail: Mail, known: seq<Envelope>, root: string, text: string, u: nat)
    requires Reached(mail, known, root, text, u)
    ensures u in mail && Env(mail, u) in Conversation(known, root)
  {
  }

  /** A round reaches one step further. */
  lemma BallGrows(mail: Mail, known: seq<Envelope>, more: seq<Envelope>, root: string, k: nat,
                  ids: set<string>, subjects: set<string>)
    requires root != "" && root in ids
    requires Collected(mail, known, root, Ball(mail, root, k)) && (k > 0 ==> Covered(known, root, ids, subjects))
    requires Complete(mail, more, ids, subjects) && StandInKnown(mail, more, root)
    requires forall e :: e in known ==> e in more
    ensures Collected(mail, more, root, Ball(mail, root, k + 1))
  {
    forall u | u in Ball(mail, root, k + 1)
      ensures u in mail && Env(mail, u) in Conversation(more, root)
    {
      if u in Ball(mail, root, k) {
        KnowingMoreKeepsMembers(known, more, root, Env(mail, u));
      } else if Starts(mail, root, u) {
        StartJoins(mail, more, root, u, ids, subjects);
      } else {
        var v :| v in Ball(mail, root, k) && Neighbour(mail, v, u, false);
        NeighbourJoins(mail, known, more, root, v, u, ids, subjects);
      }
    }
  }

  /** When nothing is left to search, every further step is collected too. */
  lemma {:induction false} NothingLeft(mail: Mail, known: seq<Envelope>, root: string, k: nat, n: nat,
                                       ids: set<string>, subjects: set<string>)
    requires root != "" && root in ids && k <= n
    requires Collected(mail, known, root, Ball(mail, root, k)) && Covered(known, root, ids, subjects)
    requires Complete(mail, known, ids, subjects) && StandInKnown(mail, known, root)
    ensures Collected(mail, known, root, Ball(mail, root, n))
    decreases n - k
  {
    if k < n {
      BallGrows(mail, known, known, root, k, ids, subjects);
      NothingLeft(mail, known, root, k + 1, n, ids, subjects);
    }
  }

  /** With exact searches a round reaches no more than one loose step further. */
  lemma RoundStaysWithin(mail: Mail, known: seq<Envelope>, root: string, k: nat, ids: seq<string>, subjects: seq<string>, u: nat)
    requires FromFolder(mail, known) && Pending(known, root, ids, subjects)
    requires forall e :: e in known ==> e.uid in Ball(mail, root, if k == 0 then 1 else k, true)
    requires k == 0 ==> ids == [root] && subjects == []
    requires u in Asked(mail, ids, []) + Asked(mail, [], subjects)
    ensures u in Ball(mail, root, k + 1, true)
  {
    if CarriesAny(mail[u], ids) {
      var id :| id in ids && Carries(mail[u], id);
      if id == root {
        assert Starts(mail, root, u);
      } else {
        assert WantedId(known, root, id);
        var e :| e in known && id in AllIds(e);
        assert SharesId(mail, e.uid, u);
        assert Neighbour(mail, e.uid, u, true);
      }
    } else {
      var s :| s in subjects && Matches(mail[u], s);
      assert WantedSubject(known, s);
      var e :| e in known && SubjectKey(e).Some? && NormalizeSubject(e.subject) == s;
      assert SharesSubject(mail, e.uid, u, true);
      assert Neighbour(mail, e.uid, u, true);
    }
  }

  // ---- the algorithm ----------------------------------------------------------------

  /** The found UIDs that are not known yet, in ascending order. */
  method NewUids(found: set<nat>, known: seq<Envelope>) returns (fresh_: seq<nat>)
    ensures forall u :: u in fresh_ <==> u in found && forall e :: e in known ==> e.uid != u
    ensures NoDuplicates(fresh_)
  {
    var left, list: seq<nat> := found, [];
    while left != {}
      invariant left <= found && NoDuplicates(list)
      invariant forall u :: u in list ==> u in found && u !in left && forall e :: e in known ==> e.uid != u
      invariant forall u :: u in found && u !in left && (forall e :: e in known ==> e.uid != u) ==> u in list
    {
      var u :| u in left;
      left := left - {u};
      if forall e :: e in known ==> e.uid != u {
        list := list + [u];
      }
    }
    SortPermutes(list, Identity);
    SortKeepsNoDuplicates(list, Identity);
    fresh_ := SortBy(list, Identity);
  }

  lemma {:induction false} FetchedMembers(mail: Mail, uids: seq<nat>)
    ensures forall e :: e in Fetch(mail, uids) <==> e.uid in uids && e.uid in mail && e == Env(mail, e.uid)
    ensures NoDuplicates(uids) ==> DistinctUids(Fetch(mail, uids))
  {
    if uids != [] {
      FetchedMembers(mail, uids[1..]);
      assert uids == [uids[0]] + uids[1..];
      if NoDuplicates(uids) {
        assert NoDuplicates(uids[1..]);
        assert uids[0] !in uids[1..];
        assert forall e :: e in Fetch(mail, uids[1..]) ==> e.uid != uids[0];
      }
    }
  }

  /** The ids and subjects of the thread's messages that have not been searched. */
  method CollectTerms(known: seq<Envelope>, members: set<nat>, searchedIds: set<string>, searchedSubjects: set<string>,
                      ghost root: string)
    returns (ids: seq<string>, subjects: seq<string>)
    ensures Pending(known, root, ids, subjects)
    ensures forall e :: e in known && e.uid in members ==> forall id :: id in AllIds(e) ==> id in searchedIds || id in ids
    ensures forall e :: e in known && e.uid in members && SubjectKey(e).Some? ==>
      NormalizeSubject(e.subject) in searchedSubjects || NormalizeSubject(e.subject) in subjects
    ensures NewIds(known, members, searchedIds, ids) && NewSubjects(known, members, searchedSubjects, subjects)
  {
    hide Pending;
    ids, subjects := [], [];
    for i := 0 to |known|
      invariant forall id {:trigger OfMember(known, members, id)} :: id in ids ==> OfMember(known, members, id)
      invariant forall s {:trigger SubjectOfMember(known, members, s)} :: s in subjects ==> SubjectOfMember(known, members, s)
      invariant forall id :: id in ids ==> id !in searchedIds
      invariant forall s :: s in subjects ==> s !in searchedSubjects
      invariant forall e :: e in known[..i] && e.uid in members ==> forall id :: id in AllIds(e) ==> id in searchedIds || id in ids
      invariant forall e :: e in known[..i] && e.uid in members && SubjectKey(e).Some? ==>
        NormalizeSubject(e.subject) in searchedSubjects || NormalizeSubject(e.subject) in subjects
    {
      var e := known[i];
      assert e in known;
      assert known[..i + 1] == known[..i] + [e];
      if e.uid in members {
        assert forall id :: id in AllIds(e) ==> OfMember(known, members, id);
        ids := AddNewIds(ids, AllIds(e), searchedIds);
        if SubjectKey(e).Some? {
          var s := NormalizeSubject(e.subject);
          assert SubjectOfMember(known, members, s);
          if s !in searchedSubjects && s !in subjects {
            subjects := subjects + [s];
          }
        }
      }
    }
    assert known[..|known|] == known;
    TermsArePending(known, members, root, ids, subjects);
  }

  ghost predicate NewIds(known: seq<Envelope>, members: set<nat>, searched: set<string>, ids: seq<string>) {
    forall id {:trigger OfMember(known, members, id)} {:trigger id in ids} :: id in ids ==> id !in searched && OfMember(known, members, id)
  }

  ghost predicate NewSubjects(known: seq<Envelope>, members: set<nat>, searched: set<string>, subjects: seq<string>) {
    forall s {:trigger SubjectOfMember(known, members, s)} {:trigger s in subjects} :: s in subjects ==> s !in searched && SubjectOfMember(known, members, s)
  }

  /** Some message of the thread carries the id. */
  ghost predicate OfMember(known: seq<Envelope>, members: set<nat>, id: string) {
    exists e :: e in known && e.uid in members && id in AllIds(e)
  }

  ghost predicate SubjectOfMember(known: seq<Envelope>, members: set<nat>, s: string) {
    exists e :: e in known && e.uid in members && SubjectKey(e).Some? && NormalizeSubject(e.subject) == s
  }

  lemma TermsArePending(known: seq<Envelope>, members: set<nat>, root: string, ids: seq<string>, subjects: seq<string>)
    requires forall id {:trigger OfMember(known, members, id)} :: id in ids ==> OfMember(known, members, id)
    requires forall s {:trigger SubjectOfMember(known, members, s)} :: s in subjects ==> SubjectOfMember(known, members, s)
    ensures Pending(known, root, ids, subjects)
  {
    forall id | id in ids
      ensures WantedId(known, root, id)
    {
      assert OfMember(known, members, id);
    }
    forall s | s in subjects
      ensures WantedSubject(known, s)
    {
      assert SubjectOfMember(known, members, s);
    }
  }

  method AddNewIds(before: seq<string>, more: seq<string>, searched: set<string>) returns (ids: seq<string>)
    ensures forall id :: id in ids <==> id in before || (id in more && id !in searched)
  {
    ids := before;
    for k := 0 to |more|
      invariant forall id :: id in ids <==> id in before || (id in more[..k] && id !in searched)
    {
      assert more[..k + 1] == more[..k] + [more[k]];
      if more[k] !in searched && more[k] !in ids {
        ids := ids + [more[k]];
      }
    }
    assert more[..|more|] == more;
  }

  /** One round of searches: the known messages afterwards. */
  method Learn(server: Imap, known: seq<Envelope>, ids: seq<string>, subjects: seq<string>) returns (more: seq<Envelope>)
    requires FromFolder(server.mail, known)
    ensures FromFolder(server.mail, more) && known <= more
    ensures forall u :: u in Asked(server.mail, ids, []) + Asked(server.mail, [], subjects) ==> Env(server.mail, u) in more
    ensures server.Exact() ==> forall e :: e in more ==>
      e in known || e.uid in Asked(server.mail, ids, []) + Asked(server.mail, [], subjects)
  {
    var byId := FindIds(server, ids);
    var bySubject := FindSubjects(server, subjects);
    var found := byId + bySubject;
    var uids := NewUids(found, known);
    var envs := Fetch(server.mail, uids);
    FetchedMembers(server.mail, uids);
    more := known + envs;
    forall i, j | 0 <= i < j < |more|
      ensures more[i].uid != more[j].uid
    {
      if i < |known| <= j {
        assert more[j] == envs[j - |known|];
        assert envs[j - |known|] in envs;
      }
    }
    forall u | u in Asked(server.mail, ids, []) + Asked(server.mail, [], subjects)
      ensures Env(server.mail, u) in more
    {
      if u !in uids {
        var e :| e in known && e.uid == u;
        assert e in more;
      } else {
        assert Env(server.mail, u) in envs;
      }
    }
  }

  lemma NowComplete(mail: Mail, known: seq<Envelope>, more: seq<Envelope>, ids: seq<string>, subjects: seq<string>,
                    searchedIds: set<string>, searchedSubjects: set<string>)
    requires Complete(mail, known, searchedIds, searchedSubjects) && known <= more
    requires forall u :: u in Asked(mail, ids, []) + Asked(mail, [], subjects) ==> Env(mail, u) in more
    ensures Complete(mail, more, searchedIds + (set id | id in ids), searchedSubjects + (set s | s in subjects))
  {
    forall u, id | u in mail && id in searchedIds + (set i | i in ids) && Carries(mail[u], id)
      ensures Env(mail, u) in more
    {
      if id !in searchedIds {
        assert CarriesAny(mail[u], ids);
        assert u in Asked(mail, ids, []);
      }
    }
    forall u, text | u in mail && text in searchedSubjects + (set s | s in subjects) && Matches(mail[u], text)
      ensures Env(mail, u) in more
    {
      if text !in searchedSubjects {
        assert MatchesAny(mail[u], subjects);
        assert u in Asked(mail, [], subjects);
      }
    }
  }

  /** The message the root id stands in for, when there is one. */
  method StartFromStandIn(server: Imap, root: string) returns (known: seq<Envelope>)
    ensures FromFolder(server.mail, known) && StandInKnown(server.mail, known, root)
    ensures forall e :: e in known ==> e.messageId == root
    ensures UidsIn(known) == StartingFrom(server.mail, root)
  {
    hide ParseStandIn, StandIn, Fetch;
    known := [];
    var uid := ParseStandIn(root);
    if uid.Some? {
      var envs := Fetch(server.mail, [uid.value]);
      FetchedMembers(server.mail, [uid.value]);
      if |envs| > 0 && envs[0].messageId == root {
        assert envs[0] in envs;
        known := [envs[0]];
      }
    }
    forall u | u in server.mail && server.mail[u].headerId == "" && StandIn(u) == root
      ensures Env(server.mail, u) in known
    {
      StandInParses(u);
      FetchedMembers(server.mail, [u]);
      assert Env(server.mail, u) in Fetch(server.mail, [u]);
    }
  }

  lemma FolderMailIsWellFormed(mail: Mail, known: seq<Envelope>)
    requires Parsed(mail) && FromFolder(mail, known)
    ensures AllWellFormed(known)
  {
    forall i | 0 <= i < |known|
      ensures WellFormed(known[i])
    {
      assert known[i] in known;
    }
  }

  lemma ConversationInThread(mail: Mail, known: seq<Envelope>, root: string)
    requires FromFolder(mail, known)
    ensures forall u :: u in Uids(Conversation(known, root)) ==> u in WholeThread(mail, root)
  {
    var c := Conversation(known, root);
    ConversationMembers(known, root);
    forall i | 0 <= i < |c|
      ensures c[i].uid in WholeThread(mail, root)
    {
      assert c[i] in c;
      assert Elements(known) <= AllEnvelopes(mail);
      LinksMonotone(Elements(known), AllEnvelopes(mail));
      Monotone(Links(Elements(known)), Links(AllEnvelopes(mail)), root, c[i].messageId);
    }
  }

  ghost function Both(searched: set<string>, pending: seq<string>): set<string> {
    searched + set x | x in pending
  }

  ghost function UidsIn(known: seq<Envelope>): set<nat> {
    set e | e in known :: e.uid
  }

  /** What is searched for the first time. */
  ghost predicate AllNew(searched: set<string>, pending: seq<string>) {
    forall x :: x in pending ==> x !in searched
  }

  /** With exact searches the state between rounds is a function of the folder, the root and their number. */
  ghost predicate Exactly(mail: Mail, root: string, round: nat, known: seq<Envelope>,
                          searchedIds: set<string>, searchedSubjects: set<string>, ids: seq<string>, subjects: seq<string>)
  {
    && UidsIn(known) == Learnt(mail, root, round)
    && Both(searchedIds, ids) == TermIds(mail, root, round) && AllNew(searchedIds, ids)
    && Both(searchedSubjects, subjects) == TermSubjects(mail, root, round) && AllNew(searchedSubjects, subjects)
    && searchedIds == (if round == 0 then {} else TermIds(mail, root, round - 1))
    && searchedSubjects == (if round == 0 then {} else TermSubjects(mail, root, round - 1))
  }

  lemma ConversationIsMembers(mail: Mail, known: seq<Envelope>, root: string)
    requires FromFolder(mail, known)
    ensures (set u | u in Uids(Conversation(known, root))) == Members(mail, root, UidsIn(known))
  {
    var c := Conversation(known, root);
    ConversationMembers(known, root);
    assert EnvelopesOf(mail, UidsIn(known)) == Elements(known);
    forall u | u in Members(mail, root, UidsIn(known))
      ensures u in Uids(c)
    {
      var i :| 0 <= i < |c| && c[i] == Env(mail, u);
      assert Uids(c)[i] == u;
    }
    forall u | u in Uids(c)
      ensures u in Members(mail, root, UidsIn(known))
    {
      var i :| 0 <= i < |c| && Uids(c)[i] == u;
      assert c[i] in c;
    }
  }

  /** An exact round learns what the pending terms hit; what the others hit is known already. */
  lemma ExactRoundLearns(mail: Mail, root: string, round: nat, known: seq<Envelope>, more: seq<Envelope>,
                         searchedIds: set<string>, searchedSubjects: set<string>, ids: seq<string>, subjects: seq<string>)
    requires Exactly(mail, root, round, known, searchedIds, searchedSubjects, ids, subjects)
    requires UidsIn(more) == UidsIn(known) + Asked(mail, ids, []) + Asked(mail, [], subjects)
    ensures UidsIn(more) == Learnt(mail, root, round + 1)
  {
    var before, after := Hits(mail, searchedIds, searchedSubjects), Hits(mail, TermIds(mail, root, round), TermSubjects(mail, root, round));
    SearchedIsLearnt(mail, root, round);
    AskedEither(mail, ids, subjects);
    hide Asked, Hits, CarriesAny, MatchesAny, Found, MemberIds, MemberSubjects, Both, UidsIn, AllNew, TermIds, TermSubjects;
    assert Learnt(mail, root, round + 1) == Learnt(mail, root, round) + after;
    hide Learnt;
    forall u | u in mail
      ensures u in after <==> u in before || CarriesAny(mail[u], ids) || MatchesAny(mail[u], subjects)
    {
      HitsOfBoth(mail, searchedIds, searchedSubjects, ids, subjects, u);
    }
    assert before <= Learnt(mail, root, round);
    assert after == before + (Asked(mail, ids, []) + Asked(mail, [], subjects));
  }

  lemma AskedEither(mail: Mail, ids: seq<string>, subjects: seq<string>)
    ensures Asked(mail, ids, []) + Asked(mail, [], subjects)
         == set u | u in mail && (CarriesAny(mail[u], ids) || MatchesAny(mail[u], subjects))
  {
    hide Carries, Matches;
  }

  lemma SearchedIsLearnt(mail: Mail, root: string, round: nat)
    ensures Hits(mail, {}, {}) == {}
    ensures round > 0 ==> Hits(mail, TermIds(mail, root, round - 1), TermSubjects(mail, root, round - 1)) <= Learnt(mail, root, round)
  {
    hide Carries, Matches, TermIds, TermSubjects;
  }

  lemma HitsOfBoth(mail: Mail, searchedIds: set<string>, searchedSubjects: set<string>, ids: seq<string>, subjects: seq<string>, u: nat)
    requires u in mail
    ensures u in Hits(mail, Both(searchedIds, ids), Both(searchedSubjects, subjects))
       <==> u in Hits(mail, searchedIds, searchedSubjects) || CarriesAny(mail[u], ids) || MatchesAny(mail[u], subjects)
  {
    hide Carries, Matches;
  }

  /** What holds between rounds: `round` steps are collected, and their ids and subjects are searched or pending. */
  ghost predicate Progress(server: Imap, root: string, round: nat, known: seq<Envelope>,
                           searchedIds: set<string>, searchedSubjects: set<string>, ids: seq<string>, subjects: seq<string>)
  {
    && FromFolder(server.mail, known) && StandInKnown(server.mail, known, root)
    && Complete(server.mail, known, searchedIds, searchedSubjects)
    && root in Both(searchedIds, ids)
    && (round == 0 ==> ids == [root] && subjects == [])
    && (round > 0 ==> Covered(known, root, Both(searchedIds, ids), Both(searchedSubjects, subjects)))
    && Collected(server.mail, known, root, Ball(server.mail, root, round))
    && Pending(known, root, ids, subjects)
    && (server.Exact() ==> KnownWithin(server.mail, known, root, if round == 0 then 1 else round))
    && (server.Exact() ==> Exactly(server.mail, root, round, known, searchedIds, searchedSubjects, ids, subjects))
  }

  ghost predicate KnownWithin(mail: Mail, known: seq<Envelope>, root: string, k: nat) {
    forall e :: e in known ==> e.uid in Ball(mail, root, k, true)
  }

  lemma StillWithin(server: Imap, root: string, round: nat, known: seq<Envelope>, more: seq<Envelope>,
                    searchedIds: set<string>, searchedSubjects: set<string>, ids: seq<string>, subjects: seq<string>)
    requires Progress(server, root, round, known, searchedIds, searchedSubjects, ids, subjects) && server.Exact()
    requires forall e :: e in more ==>
      e in known || e.uid in Asked(server.mail, ids, []) + Asked(server.mail, [], subjects)
    ensures KnownWithin(server.mail, more, root, round + 1)
  {
    forall e | e in more
      ensures e.uid in Ball(server.mail, root, round + 1, true)
    {
      if e !in known {
        RoundStaysWithin(server.mail, known, root, round, ids, subjects, e.uid);
      }
    }
  }

  /** The terms collected from the members cover the thread found so far. */
  lemma TermsCover(known: seq<Envelope>, root: string, members: set<nat>, searchedIds: set<string>,
                   searchedSubjects: set<string>, ids: seq<string>, subjects: seq<string>)
    requires members == set u | u in Uids(Conversation(known, root))
    requires forall e :: e in known && e.uid in members ==> forall id :: id in AllIds(e) ==> id in searchedIds || id in ids
    requires forall e :: e in known && e.uid in members && SubjectKey(e).Some? ==>
      NormalizeSubject(e.subject) in searchedSubjects || NormalizeSubject(e.subject) in subjects
    ensures Covered(known, root, Both(searchedIds, ids), Both(searchedSubjects, subjects))
  {
    var c := Conversation(known, root);
    ConversationMembers(known, root);
    forall e | e in c
      ensures e in known && e.uid in members
    {
      var i :| 0 <= i < |c| && c[i] == e;
      assert Uids(c)[i] == e.uid;
    }
  }

  /** One round: search the pending terms, regroup what is known, and collect the terms its members add. */
  method Round(server: Imap, folder: string, root: string, ghost round: nat, known: seq<Envelope>,
               searchedIds: set<string>, searchedSubjects: set<string>, ids: seq<string>, subjects: seq<string>)
    returns (more: seq<Envelope>, nowIds: set<string>, nowSubjects: set<string>, nextIds: seq<string>, nextSubjects: seq<string>)
    requires Parsed(server.mail) && root != ""
    requires Progress(server, root, round, known, searchedIds, searchedSubjects, ids, subjects)
    ensures Progress(server, root, round + 1, more, nowIds, nowSubjects, nextIds, nextSubjects)
  {
    nowIds, nowSubjects := searchedIds + (set x | x in ids), searchedSubjects + (set x | x in subjects);
    more := Learn(server, known, ids, subjects);
    NowComplete(server.mail, known, more, ids, subjects, searchedIds, searchedSubjects);
    BallGrows(server.mail, known, more, root, round, nowIds, nowSubjects);
    if server.Exact() {
      StillWithin(server, root, round, known, more, searchedIds, searchedSubjects, ids, subjects);
    }
    FolderMailIsWellFormed(server.mail, more);
    var uids := ThreadOf(more, folder, root);
    var members := set u | u in uids;
    nextIds, nextSubjects := CollectTerms(more, members, nowIds, nowSubjects, root);
    TermsCover(more, root, members, nowIds, nowSubjects, nextIds, nextSubjects);
    if server.Exact() {
      LearntIsExact(server, known, more, ids, subjects);
      ExactRoundLearns(server.mail, root, round, known, more, searchedIds, searchedSubjects, ids, subjects);
      ExactRoundCollects(server.mail, root, round, more, members, nowIds, nowSubjects, nextIds, nextSubjects);
    }
  }

  lemma LearntIsExact(server: Imap, known: seq<Envelope>, more: seq<Envelope>, ids: seq<string>, subjects: seq<string>)
    requires FromFolder(server.mail, more) && known <= more
    requires forall u :: u in Asked(server.mail, ids, []) + Asked(server.mail, [], subjects) ==> Env(server.mail, u) in more
    requires forall e :: e in more ==> e in known || e.uid in Asked(server.mail, ids, []) + Asked(server.mail, [], subjects)
    ensures UidsIn(more) == UidsIn(known) + Asked(server.mail, ids, []) + Asked(server.mail, [], subjects)
  {
    hide CarriesAny, MatchesAny;
    forall u | u in UidsIn(known)
      ensures u in UidsIn(more)
    {
      var e :| e in known && e.uid == u;
      assert e in more;
    }
    forall u | u in Asked(server.mail, ids, []) + Asked(server.mail, [], subjects)
      ensures u in UidsIn(more)
    {
      assert Env(server.mail, u) in more;
    }
  }

  /** After an exact round the terms searched and collected are those of the thread as it is known then. */
  lemma ExactRoundCollects(mail: Mail, root: string, round: nat, more: seq<Envelope>, members: set<nat>,
                           searchedIds: set<string>, searchedSubjects: set<string>, ids: seq<string>, subjects: seq<string>)
    requires FromFolder(mail, more) && UidsIn(more) == Learnt(mail, root, round + 1)
    requires members == set u | u in Uids(Conversation(more, root))
    requires searchedIds == TermIds(mail, root, round) && searchedSubjects == TermSubjects(mail, root, round)
    requires NewIds(more, members, searchedIds, ids) && NewSubjects(more, members, searchedSubjects, subjects)
    requires forall e :: e in more && e.uid in members ==> forall id :: id in AllIds(e) ==> id in searchedIds || id in ids
    requires forall e :: e in more && e.uid in members && SubjectKey(e).Some? ==>
      NormalizeSubject(e.subject) in searchedSubjects || NormalizeSubject(e.subject) in subjects
    ensures Exactly(mail, root, round + 1, more, searchedIds, searchedSubjects, ids, subjects)
  {
    ConversationIsMembers(mail, more, root);
    hide Members, Learnt, Conversation, FromFolder, NewIds, NewSubjects, Both, AllNew, TermIds, TermSubjects, MemberIds, MemberSubjects,
         AllIds, SubjectKey, NormalizeSubject, Exactly;
    assert members == Found(mail, root, round + 1);
    assert members <= UidsIn(more);
    hide Found, UidsIn, Uids;
    CollectedIds(mail, more, members, searchedIds, ids);
    CollectedSubjects(mail, more, members, searchedSubjects, subjects);
    ExactlyFrom(mail, root, round, more, members, searchedIds, searchedSubjects, ids, subjects);
  }

  lemma ExactlyFrom(mail: Mail, root: string, round: nat, more: seq<Envelope>, members: set<nat>,
                    searchedIds: set<string>, searchedSubjects: set<string>, ids: seq<string>, subjects: seq<string>)
    requires UidsIn(more) == Learnt(mail, root, round + 1) && members == Found(mail, root, round + 1)
    requires searchedIds == TermIds(mail, root, round) && searchedSubjects == TermSubjects(mail, root, round)
    requires Both(searchedIds, ids) == searchedIds + MemberIds(mail, members) && AllNew(searchedIds, ids)
    requires Both(searchedSubjects, subjects) == searchedSubjects + MemberSubjects(mail, members) && AllNew(searchedSubjects, subjects)
    ensures Exactly(mail, root, round + 1, more, searchedIds, searchedSubjects, ids, subjects)
  {
    TermsGrow(mail, root, round);
    TermsOfFound(mail, root, round);
    hide Found, Learnt, MemberIds, MemberSubjects, TermIds, TermSubjects, Both, AllNew, UidsIn;
  }

  lemma TermsOfFound(mail: Mail, root: string, round: nat)
    ensures TermIds(mail, root, round + 1) == {root} + MemberIds(mail, Found(mail, root, round + 1)) && root in TermIds(mail, root, round)
    ensures TermSubjects(mail, root, round + 1) == MemberSubjects(mail, Found(mail, root, round + 1))
  {
    hide Found, MemberIds, MemberSubjects;
  }

  lemma CollectedIds(mail: Mail, known: seq<Envelope>, members: set<nat>, searched: set<string>, ids: seq<string>)
    requires FromFolder(mail, known) && members <= UidsIn(known) && NewIds(known, members, searched, ids)
    requires forall e :: e in known && e.uid in members ==> forall id :: id in AllIds(e) ==> id in searched || id in ids
    ensures Both(searched, ids) == searched + MemberIds(mail, members) && AllNew(searched, ids)
  {
    hide FromFolder, MemberIds, AllIds;
    forall id
      ensures id in Both(searched, ids) <==> id in searched || id in MemberIds(mail, members)
    {
      MemberIdIsOfMember(mail, known, members, id);
      assert id in ids ==> OfMember(known, members, id);
    }
  }

  lemma CollectedSubjects(mail: Mail, known: seq<Envelope>, members: set<nat>, searched: set<string>, subjects: seq<string>)
    requires FromFolder(mail, known) && members <= UidsIn(known) && NewSubjects(known, members, searched, subjects)
    requires forall e :: e in known && e.uid in members && SubjectKey(e).Some? ==>
      NormalizeSubject(e.subject) in searched || NormalizeSubject(e.subject) in subjects
    ensures Both(searched, subjects) == searched + MemberSubjects(mail, members) && AllNew(searched, subjects)
  {
    hide FromFolder, MemberSubjects, SubjectKey, NormalizeSubject;
    forall s
      ensures s in Both(searched, subjects) <==> s in searched || s in MemberSubjects(mail, members)
    {
      MemberSubjectIsOfMember(mail, known, members, s);
      assert s in subjects ==> SubjectOfMember(known, members, s);
    }
  }

  lemma MemberIdIsOfMember(mail: Mail, known: seq<Envelope>, members: set<nat>, id: string)
    requires FromFolder(mail, known) && members <= UidsIn(known)
    ensures id in MemberIds(mail, members) <==> OfMember(known, members, id)
  {
    if u :| u in members && u in mail && id in AllIds(Env(mail, u)) {
      var e :| e in known && e.uid == u;
    }
  }

  lemma MemberSubjectIsOfMember(mail: Mail, known: seq<Envelope>, members: set<nat>, s: string)
    requires FromFolder(mail, known) && members <= UidsIn(known)
    ensures s in MemberSubjects(mail, members) <==> SubjectOfMember(known, members, s)
  {
    if u :| u in members && u in mail && SubjectKey(Env(mail, u)).Some? && NormalizeSubject(mail[u].subject) == s {
      var e :| e in known && e.uid == u;
    }
  }

  lemma AllCollected(server: Imap, root: string, round: nat, known: seq<Envelope>,
                     searchedIds: set<string>, searchedSubjects: set<string>, n: nat)
    requires root != "" && round <= n
    requires Progress(server, root, round, known, searchedIds, searchedSubjects, [], [])
    ensures Collected(server.mail, known, root, Ball(server.mail, root, n))
  {
    assert Both(searchedIds, []) == searchedIds && Both(searchedSubjects, []) == searchedSubjects;
    NothingLeft(server.mail, known, root, round, n, searchedIds, searchedSubjects);
  }

  lemma {:induction false} BallsNest(mail: Mail, root: string, k: nat, n: nat, loose: bool)
    requires k <= n
    ensures Ball(mail, root, k, loose) <= Ball(mail, root, n, loose)
    decreases n - k
  {
    if k < n {
      BallsNest(mail, root, k + 1, n, loose);
    }
  }

  /** The members of the thread found so far, by UID. */
  lemma ResultOf(server: Imap, root: string, known: seq<Envelope>, s: set<nat>)
    requires FromFolder(server.mail, known) && Collected(server.mail, known, root, s)
    ensures forall u :: u in Uids(Conversation(known, root)) ==> u in WholeThread(server.mail, root)
    ensures forall u :: u in Uids(Conversation(known, root)) ==> exists e :: e in known && e.uid == u
    ensures forall u :: u in s ==> u in Uids(Conversation(known, root))
  {
    var c := Conversation(known, root);
    ConversationInThread(server.mail, known, root);
    ConversationMembers(known, root);
    forall u | u in Uids(c)
      ensures exists e :: e in known && e.uid == u
    {
      var i :| 0 <= i < |c| && c[i].uid == u;
      assert c[i] in c;
    }
    forall u | u in s
      ensures u in Uids(c)
    {
      var i :| 0 <= i < |c| && c[i] == Env(server.mail, u);
      assert Uids(c)[i] == u;
    }
  }

  /** What is known at the start: at most the message the root stands in for. */
  lemma StartIsProgress(server: Imap, root: string, known: seq<Envelope>)
    requires FromFolder(server.mail, known) && StandInKnown(server.mail, known, root)
    requires forall e :: e in known ==> e.messageId == root
    requires UidsIn(known) == StartingFrom(server.mail, root)
    ensures Progress(server, root, 0, known, {}, {}, [root], [])
  {
    forall e | e in known
      ensures e.uid in Ball(server.mail, root, 1, true)
    {
      assert Starts(server.mail, root, e.uid);
    }
  }

  /** What the rounds leave behind: everything eight steps away, and with exact searches nothing farther. */
  ghost predicate Gathered(server: Imap, root: string, known: seq<Envelope>) {
    && FromFolder(server.mail, known)
    && Collected(server.mail, known, root, Ball(server.mail, root, MAX_EXPAND_ROUNDS))
    && (server.Exact() ==> KnownWithin(server.mail, known, root, MAX_EXPAND_ROUNDS))
    && (server.Exact() ==> UidsIn(known) == Learnt(server.mail, root, MAX_EXPAND_ROUNDS))
  }

  lemma RoundsGather(server: Imap, root: string, round: nat, known: seq<Envelope>, searchedIds: set<string>,
                     searchedSubjects: set<string>, ids: seq<string>, subjects: seq<string>)
    requires root != "" && 0 < round <= MAX_EXPAND_ROUNDS
    requires Progress(server, root, round, known, searchedIds, searchedSubjects, ids, subjects)
    requires round < MAX_EXPAND_ROUNDS ==> ids == [] && subjects == []
    ensures Gathered(server, root, known)
    ensures server.Exact() ==> (ids == [] && subjects == [] <==> Rests(server.mail, root, MAX_EXPAND_ROUNDS))
  {
    hide Ball, KnownWithin, Exactly, Complete, Covered, Collected, Pending, Rests, Learnt;
    if round < MAX_EXPAND_ROUNDS {
      AllCollected(server, root, round, known, searchedIds, searchedSubjects, MAX_EXPAND_ROUNDS);
    }
    WithinMore(server.mail, known, root, round);
    if server.Exact() {
      EmptyMeansRest(server.mail, root, round, known, searchedIds, searchedSubjects, ids, subjects);
      if ids == [] && subjects == [] {
        RestIsForever(server.mail, root, round, MAX_EXPAND_ROUNDS);
      }
      LearntAtEnd(server.mail, root, round, known, searchedIds, searchedSubjects, ids, subjects);
    }
  }

  lemma WithinMore(mail: Mail, known: seq<Envelope>, root: string, round: nat)
    requires round <= MAX_EXPAND_ROUNDS
    ensures KnownWithin(mail, known, root, round) ==> KnownWithin(mail, known, root, MAX_EXPAND_ROUNDS)
  {
    BallsNest(mail, root, round, MAX_EXPAND_ROUNDS, true);
    hide Ball;
  }

  /** With exact searches nothing is left to search if and only if the last round brought no new term. */
  lemma EmptyMeansRest(mail: Mail, root: string, round: nat, known: seq<Envelope>, searchedIds: set<string>,
                       searchedSubjects: set<string>, ids: seq<string>, subjects: seq<string>)
    requires round > 0 && Exactly(mail, root, round, known, searchedIds, searchedSubjects, ids, subjects)
    ensures ids == [] && subjects == [] <==> Rests(mail, root, round)
  {
    hide Learnt, TermIds, TermSubjects;
    if ids != [] {
      assert ids[0] in ids && ids[0] in Both(searchedIds, ids);
    }
    if subjects != [] {
      assert subjects[0] in subjects && subjects[0] in Both(searchedSubjects, subjects);
    }
  }

  lemma LearntAtEnd(mail: Mail, root: string, round: nat, known: seq<Envelope>, searchedIds: set<string>,
                    searchedSubjects: set<string>, ids: seq<string>, subjects: seq<string>)
    requires Exactly(mail, root, round, known, searchedIds, searchedSubjects, ids, subjects)
    requires round == MAX_EXPAND_ROUNDS || Learnt(mail, root, MAX_EXPAND_ROUNDS) == Learnt(mail, root, round)
    ensures UidsIn(known) == Learnt(mail, root, MAX_EXPAND_ROUNDS)
  {
    hide Learnt, TermIds, TermSubjects, Both, AllNew;
  }

  ghost function UidSet(uids: seq<nat>): set<nat> {
    set u | u in uids
  }

  /** When nothing is left to search, no search for a term of the thread would bring anything new. */
  lemma NothingLeftIsSettled(server: Imap, root: string, round: nat, known: seq<Envelope>,
                             searchedIds: set<string>, searchedSubjects: set<string>)
    requires root != "" && round > 0
    requires Progress(server, root, round, known, searchedIds, searchedSubjects, [], [])
    ensures Settled(server.mail, root, UidSet(Uids(Conversation(known, root))))
  {
    var mail, s := server.mail, UidSet(Uids(Conversation(known, root)));
    assert Both(searchedIds, []) == searchedIds && Both(searchedSubjects, []) == searchedSubjects;
    hide Ball, KnownWithin, Exactly, Pending, Starts, SharesId, CloseMail, Findable;
    forall u
      ensures u in s <==> u in mail && Env(mail, u) in Conversation(known, root)
    {
      InConversation(mail, known, root, u);
    }
    hide Conversation, Uids, FromFolder, UidSet;
    forall u | Starts(mail, root, u)
      ensures u in s
    {
      StartJoins(mail, known, root, u, searchedIds, searchedSubjects);
    }
    forall v, u | v in s && SharesId(mail, v, u)
      ensures u in s
    {
      assert Neighbour(mail, v, u, false);
      NeighbourJoins(mail, known, known, root, v, u, searchedIds, searchedSubjects);
    }
    forall v, u | v in s && CloseMail(mail, v, u) && Findable(mail[u])
      ensures u in s
    {
      CloseIsNeighbour(mail, v, u);
      NeighbourJoins(mail, known, known, root, v, u, searchedIds, searchedSubjects);
    }
  }

  lemma CloseIsNeighbour(mail: Mail, v: nat, u: nat)
    requires CloseMail(mail, v, u) && Findable(mail[u])
    ensures Neighbour(mail, v, u, false)
  {
    hide Findable, SubjectSteps;
    Reflexive(SubjectSteps(mail), u);
    assert LedBySubject(mail, v, u);
  }

  lemma InConversation(mail: Mail, known: seq<Envelope>, root: string, u: nat)
    requires FromFolder(mail, known)
    ensures u in UidSet(Uids(Conversation(known, root))) <==> u in mail && Env(mail, u) in Conversation(known, root)
  {
    var c := Conversation(known, root);
    ConversationMembers(known, root);
    if u in Uids(c) {
      var i :| 0 <= i < |c| && Uids(c)[i] == u;
      assert c[i] in c;
    }
    if u in mail && Env(mail, u) in c {
      var i :| 0 <= i < |c| && c[i] == Env(mail, u);
      assert Uids(c)[i] == u;
    }
  }

  /**
   * What opening a thread promises: ascending UIDs, all of the whole-folder thread; every message at most eight search
   * steps from the root; and with exact searches what eight rounds find, nothing more than eight loose steps away.
   */
  ghost predicate Answers(server: Imap, root: string, uids: seq<nat>) {
    && Ordered(uids, Identity)
    && (forall u :: u in uids ==> u in WholeThread(server.mail, root))
    && (forall u :: u in Ball(server.mail, root, MAX_EXPAND_ROUNDS) ==> u in uids)
    && (server.Exact() ==> forall u :: u in uids ==> u in Ball(server.mail, root, MAX_EXPAND_ROUNDS, true))
    && (server.Exact() ==> UidSet(uids) == Found(server.mail, root, MAX_EXPAND_ROUNDS))
  }

  /** The final grouping, in ascending order of UID. */
  method Finish(server: Imap, folder: string, root: string, known: seq<Envelope>) returns (uids: seq<nat>)
    requires Parsed(server.mail) && root != "" && Gathered(server, root, known)
    ensures Answers(server, root, uids) && UidSet(uids) == UidSet(Uids(Conversation(known, root)))
  {
    hide Answers;
    FolderMailIsWellFormed(server.mail, known);
    var members := ThreadOf(known, folder, root);
    uids := SortBy(members, Identity);
    SortOrders(members, Identity);
    SortPermutes(members, Identity);
    SortedAnswer(server, root, known, uids);
  }

  lemma FoundAtEnd(server: Imap, root: string, known: seq<Envelope>)
    requires Gathered(server, root, known)
    ensures server.Exact() ==> UidSet(Uids(Conversation(known, root))) == Found(server.mail, root, MAX_EXPAND_ROUNDS)
  {
    ConversationIsMembers(server.mail, known, root);
    hide Ball, Learnt, Members, Conversation, Uids, Collected, FromFolder, KnownWithin;
  }

  lemma SortedAnswer(server: Imap, root: string, known: seq<Envelope>, uids: seq<nat>)
    requires Gathered(server, root, known) && Ordered(uids, Identity)
    requires forall u :: u in uids <==> u in Uids(Conversation(known, root))
    ensures Answers(server, root, uids) && UidSet(uids) == UidSet(Uids(Conversation(known, root)))
  {
    hide Ball, WholeThread, Found, Learnt, Members, Conversation, Uids, Collected, FromFolder, UidsIn;
    var mail := server.mail;
    assert UidSet(uids) == UidSet(Uids(Conversation(known, root)));
    ResultOf(server, root, known, Ball(mail, root, MAX_EXPAND_ROUNDS));
    FoundAtEnd(server, root, known);
    hide UidSet;
    if server.Exact() {
      forall u | u in uids
        ensures u in Ball(mail, root, MAX_EXPAND_ROUNDS, true)
      {
        var e :| e in known && e.uid == u;
      }
    }
  }

  /**
   * The UIDs of the thread around `root`; `rested` says that the rounds ended with nothing left to search. Then the answer
   * is the whole-folder thread exactly when no message was left out that searches cannot find. In any case it is exactly
   * when no message outside is linked to one inside.
   */
  method ThreadUids(server: Imap, folder: string, root: string) returns (uids: seq<nat>, ghost rested: bool)
    requires Parsed(server.mail) && root != ""
    ensures Answers(server, root, uids)
    ensures rested ==>
      (UidSet(uids) == WholeThread(server.mail, root) <==>
       StandInsInside(server.mail, UidSet(uids)) && UnfindableInside(server.mail, UidSet(uids)))
    ensures rested && NothingHidden(server.mail) ==> UidSet(uids) == WholeThread(server.mail, root)
    ensures UidSet(uids) == WholeThread(server.mail, root) <==> NothingOutside(server.mail, root, UidSet(uids))
    ensures server.Exact() ==> (rested <==> Rests(server.mail, root, MAX_EXPAND_ROUNDS))
  {
    hide Progress, Answers, Gathered;
    var known := StartFromStandIn(server, root);
    StartIsProgress(server, root, known);
    var searchedIds: set<string>, searchedSubjects: set<string> := {}, {};
    var ids: seq<string>, subjects: seq<string> := [root], [];
    var round := 0;
    while round < MAX_EXPAND_ROUNDS && (ids != [] || subjects != [])
      invariant round <= MAX_EXPAND_ROUNDS && (round == 0 ==> ids == [root])
      invariant Progress(server, root, round, known, searchedIds, searchedSubjects, ids, subjects)
      decreases MAX_EXPAND_ROUNDS - round
    {
      known, searchedIds, searchedSubjects, ids, subjects :=
        Round(server, folder, root, round, known, searchedIds, searchedSubjects, ids, subjects);
      round := round + 1;
    }
    rested := ids == [] && subjects == [];
    RoundsGather(server, root, round, known, searchedIds, searchedSubjects, ids, subjects);
    if rested {
      NothingLeftIsSettled(server, root, round, known, searchedIds, searchedSubjects);
    }
    uids := Finish(server, folder, root, known);
    AnswerIsThreadIff(server, root, uids, rested);
  }

  lemma AnswerIsThreadIff(server: Imap, root: string, uids: seq<nat>, rested: bool)
    requires root != "" && Answers(server, root, uids) && (rested ==> Settled(server.mail, root, UidSet(uids)))
    ensures rested ==>
      (UidSet(uids) == WholeThread(server.mail, root) <==>
       StandInsInside(server.mail, UidSet(uids)) && UnfindableInside(server.mail, UidSet(uids)))
    ensures rested && NothingHidden(server.mail) ==> UidSet(uids) == WholeThread(server.mail, root)
    ensures UidSet(uids) == WholeThread(server.mail, root) <==> NothingOutside(server.mail, root, UidSet(uids))
  {
    assert UidSet(uids) <= WholeThread(server.mail, root);
    hide Answers, Settled, WholeThread, UidSet;
    NothingOutsideIsThread(server.mail, root, UidSet(uids));
    if rested {
      SettledIsThreadIff(server.mail, root, UidSet(uids));
      if NothingHidden(server.mail) {
        NothingHiddenIsInside(server.mail, UidSet(uids));
      }
    }
  }
}
