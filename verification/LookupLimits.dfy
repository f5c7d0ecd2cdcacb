/** Folders on which opening a thread shows less than the whole-folder thread, and one on which it shows all of it. */
module LookupLimits {
  import opened Text
  import opened Graph
  import opened Envelopes
  import opened Folder
  import opened FindableSubjects
  import opened SearchRounds
  import opened ThreadClosure
  import opened ThreadLookup
  import opened WholeThreads

  function Bare(headerId: string, inReplyTo: string): Message {
    Message(headerId, inReplyTo, [], "", 0, None, [], {}, false, "")
  }

  // ---- a reply to a message without Message-ID ----------------------------------------

  const STAND_IN_7 := "<uid-7@local>"

  /** Message 7 has no Message-ID; message 8 replies to the id that stands in for it. */
  const REPLY_TO_STAND_IN: Mail := map[7 := Bare("", ""), 8 := Bare("<a>", STAND_IN_7)]

  lemma StandInOfSeven()
    ensures StandIn(7) == STAND_IN_7
  {
    assert Decimal(7) == "7";
  }

  lemma {:induction false} SevenIsOutOfReach(k: nat)
    ensures 7 !in Ball(REPLY_TO_STAND_IN, "<a>", k, true)
  {
    var mail := REPLY_TO_STAND_IN;
    StandInOfSeven();
    if k > 0 {
      SevenIsOutOfReach(k - 1);
      assert !Starts(mail, "<a>", 7);
      assert Env(mail, 8).inReplyTo != "";
      assert SubjectKey(Env(mail, 8)).None?;
      assert !Neighbour(mail, 8, 7, true);
    }
  }

  /** The reply's thread contains message 7, but searching from the reply never finds it. */
  lemma StandInReplyIsMissed(server: Imap, uids: seq<nat>)
    requires server.mail == REPLY_TO_STAND_IN && server.Exact() && Answers(server, "<a>", uids)
    ensures 7 in WholeThread(server.mail, "<a>") && 7 !in uids
  {
    SevenIsOutOfReach(MAX_EXPAND_ROUNDS);
    StandInOfSeven();
    assert STAND_IN_7 in AllIds(Env(server.mail, 8));
    NamedConnects(server.mail, 8, STAND_IN_7);
    assert Env(server.mail, 8).messageId == "<a>";
  }

  // ---- a long chain of replies --------------------------------------------------------

  function Id(i: nat): string {
    "<" + Decimal(i) + ">"
  }

  lemma IdInjective(i: nat, j: nat)
    requires Id(i) == Id(j)
    ensures i == j
  {
    assert Id(i)[1..|Id(i)| - 1] == Decimal(i);
    assert Id(j)[1..|Id(j)| - 1] == Decimal(j);
    DecimalInjective(i, j);
  }

  /** Messages 1 to `n`, each a reply to the one before. */
  function Chain(n: nat): Mail {
    map i: nat | 1 <= i <= n :: Link(i)
  }

  function Link(i: nat): Message
    requires i > 0
  {
    Bare(Id(i), if i == 1 then "" else Id(i - 1))
  }

  lemma ChainCarriers(n: nat, u: nat, i: nat)
    requires 1 <= u <= n && (Carries(Chain(n)[u], Id(i)) || Id(i) in AllIds(Env(Chain(n), u)))
    ensures i == u || i + 1 == u
  {
    if Id(i) == Id(u) {
      IdInjective(i, u);
    } else {
      IdInjective(i, u - 1);
    }
  }

  lemma ChainNeighbours(n: nat, v: nat, u: nat)
    requires Neighbour(Chain(n), v, u, true)
    ensures u <= v + 1
  {
    assert SubjectKey(Env(Chain(n), v)).None? by {
      assert NormalizeSubject("") == "";
    }
    var id :| id in AllIds(Env(Chain(n), v)) && Carries(Chain(n)[u], id);
    var i := if id == Id(v) then v else v - 1;
    ChainCarriers(n, u, i);
  }

  lemma {:induction false} ChainBall(n: nat, k: nat, u: nat)
    requires u in Ball(Chain(n), Id(1), k, true)
    ensures u <= k + 1
  {
    hide Neighbour, Carries, Link, Id;
    if u in Ball(Chain(n), Id(1), k - 1, true) {
      ChainBall(n, k - 1, u);
    } else if Starts(Chain(n), Id(1), u) {
      ChainCarriers(n, u, 1);
    } else {
      var v :| v in Ball(Chain(n), Id(1), k - 1, true) && Neighbour(Chain(n), v, u, true);
      ChainBall(n, k - 1, v);
      ChainNeighbours(n, v, u);
    }
  }

  lemma {:induction false} ChainIsOneThread(n: nat, u: nat)
    requires 1 <= u <= n
    ensures u in WholeThread(Chain(n), Id(1))
    decreases u
  {
    var mail := Chain(n);
    var links := Links(AllEnvelopes(mail));
    if u == 1 {
      Reflexive(links, Id(1));
    } else {
      ChainIsOneThread(n, u - 1);
      NamedConnects(mail, u, Id(u - 1));
      hide Chain, Links, Connected;
      Transitive(links, Id(1), Id(u - 1), Id(u));
    }
  }

  /** Of a chain of replies, the lookup from the first message never gets past the ninth. */
  lemma LongChainIsCut(server: Imap, n: nat, uids: seq<nat>, u: nat)
    requires server.mail == Chain(n) && server.Exact() && Answers(server, Id(1), uids)
    requires 10 <= u <= n
    ensures u in WholeThread(server.mail, Id(1)) && u !in uids
  {
    ChainIsOneThread(n, u);
    if u in uids {
      ChainBall(n, MAX_EXPAND_ROUNDS, u);
    }
  }

  // ---- a subject with two blanks --------------------------------------------------------

  const SENDER := Address("", "news@example.org")

  function Issue(i: nat, subject: string, date: int): Message {
    Message(Id(i), "", [], subject, date, Some(SENDER), [], {}, false, "")
  }

  /** Two issues of one subject and sender, a day apart, with two blanks between the words of the subject. */
  function TwoIssues(a: string, b: string): Mail {
    map[1 := Issue(1, a + "  " + b, 0), 2 := Issue(2, a + "  " + b, DAY_MS)]
  }

  lemma IssueKey(i: nat, subject: string, date: int)
    requires NormalizeSubject(subject) != ""
    ensures var e := ToEnvelope(i, Issue(i, subject, date));
      && SubjectKey(e) == Some(NormalizeSubject(subject) + "\n" + Lower(SENDER.address))
      && e.messageId == Id(i) && e.date == date && forall id :: id in AllIds(e) <==> id == Id(i)
  {
    hide NormalizeSubject;
  }

  lemma IssueCarries(i: nat, subject: string, date: int, id: string)
    ensures Carries(Issue(i, subject, date), id) <==> id == Id(i)
  {
  }

  lemma SecondIssueIsNoNeighbour(a: string, b: string)
    requires AreWords(a, b)
    ensures var mail := TwoIssues(a, b); !Starts(mail, Id(1), 2) && !Neighbour(mail, 1, 2, true)
  {
    var mail, subject := TwoIssues(a, b), a + "  " + b;
    TwoBlanksBecomeOne(a, b);
    TwoBlanksAreNotFound(a, b, mail[2]);
    IssueKey(1, subject, 0);
    IssueKey(2, subject, DAY_MS);
    IssueCarries(2, subject, DAY_MS, Id(1));
    if Id(1) == Id(2) {
      IdInjective(1, 2);
    }
    hide Id, NormalizeSubject, Within, Carries, Lower, AllIds, ToEnvelope, SubjectKey;
  }

  lemma {:induction false} SecondIssueIsOutOfReach(a: string, b: string, k: nat)
    requires AreWords(a, b)
    ensures 2 !in Ball(TwoIssues(a, b), Id(1), k, true)
  {
    SecondIssueIsNoNeighbour(a, b);
    hide AreWords, Neighbour, Starts, Id, Issue;
    if k > 0 {
      SecondIssueIsOutOfReach(a, b, k - 1);
    }
  }

  /** The list shows the two issues as one conversation, but opening it from the first never finds the second. */
  lemma TwoBlanksAreMissed(server: Imap, a: string, b: string, uids: seq<nat>)
    requires AreWords(a, b) && server.mail == TwoIssues(a, b) && server.Exact() && Answers(server, Id(1), uids)
    ensures 2 in WholeThread(server.mail, Id(1)) && 2 !in uids
  {
    SecondIssueIsOutOfReach(a, b, MAX_EXPAND_ROUNDS);
    IssuesOfADayAreClose(a, b);
    CloseConnects(server.mail, 1, 2);
    hide Ball, NormalizeSubject, Lower, SubjectKey, Connected, Found, Links, AllEnvelopes;
  }

  lemma IssuesOfADayAreClose(a: string, b: string)
    requires AreWords(a, b)
    ensures CloseMail(TwoIssues(a, b), 1, 2)
  {
    TwoBlanksBecomeOne(a, b);
    IssuesWithinGap(a + "  " + b, 1, 0, 2, DAY_MS);
    hide NormalizeSubject, Issue, ToEnvelope, TagOf, Close;
  }

  // ---- a newsletter ---------------------------------------------------------------------

  /** `n` issues of one subject and sender, two weeks apart. */
  function Newsletter(n: nat, subject: string): Mail {
    map i: nat | 1 <= i <= n :: Issue(i, subject, i * SUBJECT_FALLBACK_GAP_MS)
  }

  lemma IssuesAreClose(n: nat, subject: string, i: nat, j: nat)
    requires 1 <= i <= j <= n && j <= i + 1 && NormalizeSubject(subject) != ""
    ensures CloseMail(Newsletter(n, subject), i, j)
  {
    IssueTagsAreClose(subject, i, j);
    hide NormalizeSubject, Issue, ToEnvelope, TagOf, Close;
  }

  lemma IssueTagsAreClose(subject: string, i: nat, j: nat)
    requires i <= j <= i + 1 && NormalizeSubject(subject) != ""
    ensures Close(TagOf(ToEnvelope(i, Issue(i, subject, i * SUBJECT_FALLBACK_GAP_MS))),
                  TagOf(ToEnvelope(j, Issue(j, subject, j * SUBJECT_FALLBACK_GAP_MS))))
  {
    hide Close, TagOf, ToEnvelope, Issue, NormalizeSubject;
    NextIssueDate(i);
    IssuesWithinGap(subject, i, i * SUBJECT_FALLBACK_GAP_MS, j, j * SUBJECT_FALLBACK_GAP_MS);
  }

  lemma NextIssueDate(i: nat)
    ensures (i + 1) * SUBJECT_FALLBACK_GAP_MS == i * SUBJECT_FALLBACK_GAP_MS + SUBJECT_FALLBACK_GAP_MS
  {
  }

  lemma IssuesWithinGap(subject: string, i: nat, d: int, j: nat, e: int)
    requires -SUBJECT_FALLBACK_GAP_MS <= d - e <= SUBJECT_FALLBACK_GAP_MS && NormalizeSubject(subject) != ""
    ensures Close(TagOf(ToEnvelope(i, Issue(i, subject, d))), TagOf(ToEnvelope(j, Issue(j, subject, e))))
  {
    IssueKey(i, subject, d);
    IssueKey(j, subject, e);
    hide NormalizeSubject, Lower, SubjectKey, Id, ToEnvelope, AllIds, Issue;
  }

  lemma IssuesAreFindable(n: nat, subject: string, i: nat)
    requires 1 <= i <= n && SingleBlanks(subject)
    ensures Findable(Newsletter(n, subject)[i])
  {
    SingleBlanksAreFindable(Newsletter(n, subject)[i]);
  }

  lemma IssueStep(n: nat, subject: string, u: nat)
    requires 2 <= u <= n && NormalizeSubject(subject) != "" && SingleBlanks(subject)
    ensures (u - 1, u) in SubjectSteps(Newsletter(n, subject))
  {
    IssuesAreClose(n, subject, u - 1, u);
    IssuesAreFindable(n, subject, u - 1);
    IssuesAreFindable(n, subject, u);
    hide NormalizeSubject, SingleBlanks, Findable, CloseMail, Issue;
  }

  lemma {:induction false} IssuesLead(n: nat, subject: string, u: nat)
    requires 1 <= u <= n && NormalizeSubject(subject) != "" && SingleBlanks(subject)
    ensures Connected<nat>(SubjectSteps(Newsletter(n, subject)), 1, u)
    decreases u
  {
    hide Connected, SubjectSteps, Newsletter, NormalizeSubject, SingleBlanks;
    var steps := SubjectSteps(Newsletter(n, subject));
    if u == 1 {
      Reflexive<nat>(steps, 1);
    } else {
      IssuesLead(n, subject, u - 1);
      IssueStep(n, subject, u);
      assert Adjacent<nat>(steps, u - 1, u);
      Step<nat>(steps, u - 1, u);
      Transitive<nat>(steps, 1, u - 1, u);
    }
  }

  /** However many issues there are, opening a newsletter by its first one shows all of them. */
  lemma NewsletterIsShownWhole(server: Imap, n: nat, subject: string, uids: seq<nat>, u: nat)
    requires server.mail == Newsletter(n, subject) && NormalizeSubject(subject) != "" && SingleBlanks(subject)
    requires Answers(server, Id(1), uids) && 1 <= u <= n
    ensures u in uids
  {
    var mail := server.mail;
    IssuesAreClose(n, subject, 1, 1);
    IssuesAreFindable(n, subject, 1);
    IssuesLead(n, subject, u);
    IssueCarries(1, subject, SUBJECT_FALLBACK_GAP_MS, Id(1));
    hide NormalizeSubject, SingleBlanks, Findable, CloseMail, Connected, SubjectSteps, Carries, Id, Found, WholeThread;
    assert LedBySubject(mail, 1, u);
    assert Starts(mail, Id(1), 1);
    assert 1 in Ball(mail, Id(1), 1);
    assert Neighbour(mail, 1, u, false);
    assert u in Ball(mail, Id(1), 2);
    BallsNest(mail, Id(1), 2, MAX_EXPAND_ROUNDS, false);
  }
}
