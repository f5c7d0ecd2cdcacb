/** When opening a thread shows the whole-folder thread. */
module WholeThreads {
  import opened Text
  import opened Graph
  import opened Sorting
  import opened Envelopes
  import opened Conversations
  import opened ConversationLaws
  import opened Folder
  import opened SearchRounds
  import opened ThreadClosure
  import opened ThreadLookup

  // ---- the whole-folder thread is a row of the whole-folder list ----------------------

  /** The list holds every message of the folder once. */
  ghost predicate ListsFolder(mail: Mail, envs: seq<Envelope>) {
    DistinctUids(envs) && Elements(envs) == AllEnvelopes(mail)
  }

  lemma FolderEnvelope(mail: Mail, envs: seq<Envelope>, u: nat)
    requires ListsFolder(mail, envs) && u in mail
    ensures Env(mail, u) in envs
  {
    assert Env(mail, u) in AllEnvelopes(mail);
    assert Env(mail, u) in Elements(envs);
  }

  /** Grouping the whole folder puts into the row of a message exactly the whole-folder thread around its id. */
  lemma RowIsWholeThread(mail: Mail, envs: seq<Envelope>, folder: string, k: nat, u: nat)
    requires ListsFolder(mail, envs) && u in mail
    requires k < |Threads(envs, folder)| && u in Threads(envs, folder)[k].uids
    ensures forall v :: v in Threads(envs, folder)[k].uids <==> v in WholeThread(mail, Env(mail, u).messageId)
  {
    var t := Threads(envs, folder)[k];
    var list := RowIsWellMade(envs, folder, k);
    FolderEnvelope(mail, envs, u);
    forall v | v in t.uids
      ensures v in mail
    {
      var i :| 0 <= i < |list| && Uids(list)[i] == v;
      assert list[i] in envs;
      assert list[i] in AllEnvelopes(mail);
    }
    forall v | v in mail
      ensures v in t.uids <==> v in WholeThread(mail, Env(mail, u).messageId)
    {
      FolderEnvelope(mail, envs, v);
      RowIsComponent(envs, folder, k, Env(mail, u), Env(mail, v));
    }
  }

  // ---- what searches can find is part of the thread ----------------------------------

  lemma NeighbourIsLinked(mail: Mail, v: nat, u: nat)
    requires Neighbour(mail, v, u, false)
    ensures Connected(Links(AllEnvelopes(mail)), Env(mail, v).messageId, Env(mail, u).messageId)
  {
    hide Links, AllEnvelopes, Connected, LedBySubject;
    if SharesId(mail, v, u) {
      var id :| id in AllIds(Env(mail, v)) && Carries(mail[u], id);
      CarriesIsNamed(u, mail[u], id);
      SharingConnects(mail, v, u, id);
    } else {
      LeadIsLinked(mail, v, u);
    }
  }

  ghost predicate LinkedTo(mail: Mail, v: nat, u: nat) {
    v in mail && u in mail && Connected(Links(AllEnvelopes(mail)), Env(mail, v).messageId, Env(mail, u).messageId)
  }

  lemma LeadIsLinked(mail: Mail, v: nat, u: nat)
    requires LedBySubject(mail, v, u)
    ensures LinkedTo(mail, v, u)
  {
    hide Links, AllEnvelopes, Connected, CloseMail, SubjectSteps, Findable, Adjacent;
    var links, steps := Links(AllEnvelopes(mail)), SubjectSteps(mail);
    var w :| w in mail && CloseMail(mail, v, w) && Findable(mail[w]) && Connected(steps, w, u) by { LeadIsThere(mail, v, u); }
    CloseConnects(mail, v, w);
    var nodes := iset x: nat {:trigger LinkedTo(mail, v, x)} | LinkedTo(mail, v, x);
    assert LinkedTo(mail, v, w) by {
      CloseIsThere(mail, v, w);
    }
    forall a, b | Adjacent(steps, a, b) && a in nodes
      ensures b in nodes
    {
      StepIsClose(mail, a, b);
      CloseIsThere(mail, a, b);
      CloseConnects(mail, a, b);
      Transitive(links, Env(mail, v).messageId, Env(mail, a).messageId, Env(mail, b).messageId);
    }
    ClosedContains(steps, nodes, w, u);
  }

  lemma LeadIsThere(mail: Mail, v: nat, u: nat)
    requires LedBySubject(mail, v, u)
    ensures exists w :: w in mail && CloseMail(mail, v, w) && Findable(mail[w]) && Connected(SubjectSteps(mail), w, u)
  {
    hide Findable, Connected, SubjectSteps;
  }

  lemma CloseIsThere(mail: Mail, v: nat, u: nat)
    requires CloseMail(mail, v, u)
    ensures v in mail && u in mail
  {
  }

  lemma {:induction false} BallIsInThread(mail: Mail, root: string, k: nat, u: nat)
    requires root != "" && u in Ball(mail, root, k)
    ensures u in WholeThread(mail, root)
  {
    hide Neighbour, Links, AllEnvelopes, Connected;
    if u in Ball(mail, root, k - 1) {
      BallIsInThread(mail, root, k - 1, u);
    } else if Starts(mail, root, u) {
      CarriesIsNamed(u, mail[u], root);
      NamedConnects(mail, u, root);
    } else {
      var v :| v in Ball(mail, root, k - 1) && Neighbour(mail, v, u, false);
      BallIsInThread(mail, root, k - 1, v);
      NeighbourIsLinked(mail, v, u);
      JoinsThread(mail, root, v, u);
    }
  }

  // ---- when they find all of it -------------------------------------------------------

  lemma StableBallIsSettled(mail: Mail, root: string, k: nat)
    requires k > 0 && Ball(mail, root, k + 1) <= Ball(mail, root, k)
    ensures Settled(mail, root, Ball(mail, root, k))
  {
    hide Starts, SharesId, Findable, SharesSubject, TagOf, Close;
    var ball := Ball(mail, root, k);
    forall u | Starts(mail, root, u)
      ensures u in ball
    {
      StartIsThere(mail, root, u);
      assert u in Ball(mail, root, k + 1);
    }
    forall v, u | v in ball && SharesId(mail, v, u)
      ensures u in ball
    {
      SharerIsThere(mail, v, u);
      assert Neighbour(mail, v, u, false);
      assert u in Ball(mail, root, k + 1);
    }
    forall v, u | v in ball && u in mail && CloseMail(mail, v, u) && Findable(mail[u])
      ensures u in ball
    {
      CloseIsThere(mail, v, u);
      CloseIsNeighbour(mail, v, u);
      assert u in Ball(mail, root, k + 1);
    }
  }

  lemma StartIsThere(mail: Mail, root: string, u: nat)
    requires Starts(mail, root, u)
    ensures u in mail
  {
  }

  lemma SharerIsThere(mail: Mail, v: nat, u: nat)
    requires SharesId(mail, v, u)
    ensures u in mail
  {
  }

  /**
   * Once `k` search steps reach everything reachable, they have found the whole-folder thread if and only if no message was
   * left out that only a stand-in id or an unfindable subject links to one found.
   */
  lemma FoundIsThreadIff(mail: Mail, root: string, k: nat)
    requires root != "" && k > 0 && Ball(mail, root, k + 1) <= Ball(mail, root, k)
    ensures Ball(mail, root, k) == WholeThread(mail, root) <==>
            StandInsInside(mail, Ball(mail, root, k)) && UnfindableInside(mail, Ball(mail, root, k))
  {
    StableBallIsSettled(mail, root, k);
    forall u | u in Ball(mail, root, k)
      ensures u in WholeThread(mail, root)
    {
      BallIsInThread(mail, root, k, u);
    }
    hide Ball, Settled, WholeThread;
    SettledIsThreadIff(mail, root, Ball(mail, root, k));
  }

  // ---- rounds of exact searches that bring no new term ------------------------------------

  /** The folder as far as it is known. */
  ghost function Known(mail: Mail, known: set<nat>): Mail {
    map u | u in known && u in mail :: mail[u]
  }

  lemma MembersAreThread(mail: Mail, root: string, known: set<nat>)
    ensures Members(mail, root, known) == WholeThread(Known(mail, known), root)
  {
    var part := Known(mail, known);
    assert forall u :: u in part ==> Env(part, u) == Env(mail, u);
    assert EnvelopesOf(mail, known) == AllEnvelopes(part);
  }

  lemma RestedHitsAreKnown(mail: Mail, root: string, k: nat)
    requires Rests(mail, root, k)
    ensures Hits(mail, TermIds(mail, root, k), TermSubjects(mail, root, k)) <= Learnt(mail, root, k)
  {
    RestIsForever(mail, root, k, k + 1);
    hide Hits, TermIds, TermSubjects;
  }

  lemma {:induction false} StartIsLearnt(mail: Mail, root: string, k: nat)
    ensures StartingFrom(mail, root) <= Learnt(mail, root, k)
  {
    hide Hits, StartingFrom;
    if k > 0 {
      StartIsLearnt(mail, root, k - 1);
    }
  }

  lemma RestedIsSettled(mail: Mail, root: string, k: nat)
    requires root != "" && Rests(mail, root, k)
    ensures Settled(mail, root, Found(mail, root, k))
  {
    var known, s := Learnt(mail, root, k), Found(mail, root, k);
    MembersAreThread(mail, root, known);
    ThreadHasNothingOutside(Known(mail, known), root);
    RestedHitsAreKnown(mail, root, k);
    StartIsLearnt(mail, root, k);
    TermsOfRest(mail, root, k);
    hide Learnt, Found, Members, WholeThread, TermIds, TermSubjects, Rests, Settled, NothingOutside, MemberIds, MemberSubjects, Known;
    var ids, subjects := TermIds(mail, root, k), TermSubjects(mail, root, k);
    StartsSettle(mail, root, known, s, ids, subjects);
    IdsSettle(mail, root, known, s, ids, subjects);
    SubjectsSettle(mail, root, known, s, ids, subjects);
    assert s <= mail.Keys;
    SettledFrom(mail, root, s);
  }

  /** The searched terms cover those of the thread as it is known, and all they hit is known. */
  ghost predicate Exhausted(mail: Mail, root: string, known: set<nat>, s: set<nat>, ids: set<string>, subjects: set<string>) {
    && NothingOutside(Known(mail, known), root, s) && Hits(mail, ids, subjects) <= known
    && root in ids && MemberIds(mail, s) <= ids && MemberSubjects(mail, s) <= subjects
  }

  lemma StartsSettle(mail: Mail, root: string, known: set<nat>, s: set<nat>, ids: set<string>, subjects: set<string>)
    requires root != "" && Exhausted(mail, root, known, s, ids, subjects) && StartingFrom(mail, root) <= known
    ensures forall u :: Starts(mail, root, u) ==> u in s
  {
    hide MemberIds, MemberSubjects;
    forall u | Starts(mail, root, u)
      ensures u in s
    {
      if Carries(mail[u], root) {
        assert u in Hits(mail, ids, subjects);
      } else {
        StandInParses(u);
      }
      CarriesIsNamed(u, mail[u], root);
      assert root in AllIds(Env(Known(mail, known), u));
    }
  }

  lemma IdsSettle(mail: Mail, root: string, known: set<nat>, s: set<nat>, ids: set<string>, subjects: set<string>)
    requires Exhausted(mail, root, known, s, ids, subjects)
    ensures forall v, u :: v in s && SharesId(mail, v, u) ==> u in s
  {
    hide MemberSubjects, AllIds;
    forall v, u | v in s && SharesId(mail, v, u)
      ensures u in s
    {
      var id :| id in AllIds(Env(mail, v)) && Carries(mail[u], id);
      assert id in MemberIds(mail, s);
      assert u in Hits(mail, ids, subjects);
      CarriesIsNamed(u, mail[u], id);
      assert SharesAnyId(Known(mail, known), v, u);
    }
  }

  lemma SubjectsSettle(mail: Mail, root: string, known: set<nat>, s: set<nat>, ids: set<string>, subjects: set<string>)
    requires Exhausted(mail, root, known, s, ids, subjects)
    ensures forall v, u :: v in s && CloseMail(mail, v, u) && Findable(mail[u]) ==> u in s
  {
    hide MemberIds, NormalizeSubject;
    forall v, u | v in s && u in mail && CloseMail(mail, v, u) && Findable(mail[u])
      ensures u in s
    {
      SameKeySameSubject(Env(mail, v), Env(mail, u));
      assert NormalizeSubject(mail[v].subject) in MemberSubjects(mail, s);
      assert u in Hits(mail, ids, subjects);
      assert CloseMail(Known(mail, known), v, u);
    }
  }

  lemma SettledFrom(mail: Mail, root: string, s: set<nat>)
    requires s <= mail.Keys
    requires forall u :: Starts(mail, root, u) ==> u in s
    requires forall v, u :: v in s && SharesId(mail, v, u) ==> u in s
    requires forall v, u :: v in s && CloseMail(mail, v, u) && Findable(mail[u]) ==> u in s
    ensures Settled(mail, root, s)
  {
    hide Starts, SharesId, CloseMail, Findable;
  }

  lemma TermsOfRest(mail: Mail, root: string, k: nat)
    requires k > 0
    ensures root in TermIds(mail, root, k)
    ensures MemberIds(mail, Found(mail, root, k)) <= TermIds(mail, root, k)
    ensures MemberSubjects(mail, Found(mail, root, k)) <= TermSubjects(mail, root, k)
  {
  }

  /**
   * Rounds of exact searches that brought no new term have found the whole-folder thread if and only if no message was left
   * out that only a stand-in id or an unfindable subject links to one found.
   */
  lemma RestedIsThreadIff(mail: Mail, root: string, k: nat)
    requires root != "" && Rests(mail, root, k)
    ensures Found(mail, root, k) == WholeThread(mail, root) <==>
            StandInsInside(mail, Found(mail, root, k)) && UnfindableInside(mail, Found(mail, root, k))
  {
    RestedIsSettled(mail, root, k);
    FoundIsInThread(mail, root, k);
    hide Found, Settled, WholeThread;
    SettledIsThreadIff(mail, root, Found(mail, root, k));
  }

  lemma FoundIsInThread(mail: Mail, root: string, k: nat)
    ensures Found(mail, root, k) <= WholeThread(mail, root)
  {
    var known := Learnt(mail, root, k);
    assert EnvelopesOf(mail, known) <= AllEnvelopes(mail);
    LinksMonotone(EnvelopesOf(mail, known), AllEnvelopes(mail));
    forall u | u in Found(mail, root, k)
      ensures u in WholeThread(mail, root)
    {
      Monotone(Links(EnvelopesOf(mail, known)), Links(AllEnvelopes(mail)), root, Env(mail, u).messageId);
    }
  }

  /** Opening a thread whose messages all lie within eight search steps shows exactly the whole-folder thread. */
  lemma OpeningShowsWholeThread(server: Imap, root: string, uids: seq<nat>)
    requires root != "" && Answers(server, root, uids)
    requires Ball(server.mail, root, MAX_EXPAND_ROUNDS + 1) <= Ball(server.mail, root, MAX_EXPAND_ROUNDS)
    requires var ball := Ball(server.mail, root, MAX_EXPAND_ROUNDS);
      StandInsInside(server.mail, ball) && UnfindableInside(server.mail, ball)
    ensures UidSet(uids) == WholeThread(server.mail, root)
  {
    FoundIsThreadIff(server.mail, root, MAX_EXPAND_ROUNDS);
    hide Ball, WholeThread, Found;
  }

  /** With exact searches opening a folder in which nothing is hidden shows the whole thread whenever the last round brought no new term. */
  lemma ExactOpeningShowsWholeThread(server: Imap, root: string, uids: seq<nat>)
    requires root != "" && server.Exact() && Answers(server, root, uids)
    requires Rests(server.mail, root, MAX_EXPAND_ROUNDS) && NothingHidden(server.mail)
    ensures UidSet(uids) == WholeThread(server.mail, root)
  {
    RestedIsThreadIff(server.mail, root, MAX_EXPAND_ROUNDS);
    NothingHiddenIsInside(server.mail, Found(server.mail, root, MAX_EXPAND_ROUNDS));
  }
}
