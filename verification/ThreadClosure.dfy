/** When a set of messages is the whole-folder thread, and when a search that has come to rest found it. */
module ThreadClosure {
  import opened Text
  import opened Graph
  import opened Envelopes
  import opened Folder
  import SubjectFallback

  lemma NamedConnects(mail: Mail, u: nat, id: string)
    requires u in mail && id in AllIds(Env(mail, u))
    ensures Connected(Links(AllEnvelopes(mail)), Env(mail, u).messageId, id)
    ensures Connected(Links(AllEnvelopes(mail)), id, Env(mail, u).messageId)
  {
    var e, links := Env(mail, u), Links(AllEnvelopes(mail));
    assert e in AllEnvelopes(mail);
    if id == e.messageId {
      Reflexive(links, id);
    } else {
      assert id in NamedIds(e);
      assert (e.messageId, id) in IdLinks(AllEnvelopes(mail));
      Step(links, e.messageId, id);
      Step(links, id, e.messageId);
    }
  }

  lemma SharingConnects(mail: Mail, v: nat, u: nat, id: string)
    requires v in mail && u in mail && id in AllIds(Env(mail, v)) && id in AllIds(Env(mail, u))
    ensures Connected(Links(AllEnvelopes(mail)), Env(mail, v).messageId, Env(mail, u).messageId)
  {
    NamedConnects(mail, v, id);
    NamedConnects(mail, u, id);
    Transitive(Links(AllEnvelopes(mail)), Env(mail, v).messageId, id, Env(mail, u).messageId);
  }

  lemma CloseConnects(mail: Mail, v: nat, u: nat)
    requires CloseMail(mail, v, u)
    ensures Connected(Links(AllEnvelopes(mail)), Env(mail, v).messageId, Env(mail, u).messageId)
  {
    var e, f := Env(mail, v), Env(mail, u);
    assert e in AllEnvelopes(mail) && f in AllEnvelopes(mail);
    SubjectFallback.SubjectLinkOf(AllEnvelopes(mail), e, f);
    Step(Links(AllEnvelopes(mail)), e.messageId, f.messageId);
  }

  lemma JoinsThread(mail: Mail, root: string, v: nat, u: nat)
    requires v in WholeThread(mail, root) && u in mail
    requires Connected(Links(AllEnvelopes(mail)), Env(mail, v).messageId, Env(mail, u).messageId)
    ensures u in WholeThread(mail, root)
  {
    Transitive(Links(AllEnvelopes(mail)), root, Env(mail, v).messageId, Env(mail, u).messageId);
  }

  // ---- sets that no link leaves ---------------------------------------------------------

  ghost predicate SharesAnyId(mail: Mail, v: nat, u: nat)
    requires v in mail && u in mail
  {
    exists id :: id in AllIds(Env(mail, v)) && id in AllIds(Env(mail, u))
  }

  /** No message outside `s` has the root id, an id of a message in `s`, or a subject link to one. */
  ghost predicate NothingOutside(mail: Mail, root: string, s: set<nat>) {
    && s <= mail.Keys
    && (forall u :: u in mail && root in AllIds(Env(mail, u)) ==> u in s)
    && (forall v, u :: v in s && u in mail && SharesAnyId(mail, v, u) ==> u in s)
    && (forall v, u :: v in s && CloseMail(mail, v, u) ==> u in s)
  }

  ghost predicate SeenId(mail: Mail, root: string, s: set<nat>, id: string) {
    id == root || exists v :: v in s && v in mail && id in AllIds(Env(mail, v))
  }

  lemma SeenCarrierIsInside(mail: Mail, root: string, s: set<nat>, id: string, u: nat)
    requires NothingOutside(mail, root, s) && SeenId(mail, root, s, id) && u in mail && id in AllIds(Env(mail, u))
    ensures u in s
  {
    if id != root {
      var v :| v in s && v in mail && id in AllIds(Env(mail, v));
      assert SharesAnyId(mail, v, u);
    }
  }

  lemma LinkStaysInside(mail: Mail, root: string, s: set<nat>, a: string, b: string)
    requires NothingOutside(mail, root, s) && (a, b) in Links(AllEnvelopes(mail))
    ensures SeenId(mail, root, s, a) <==> SeenId(mail, root, s, b)
  {
    hide NothingOutside;
    if (a, b) in IdLinks(AllEnvelopes(mail)) {
      IdLinkStaysInside(mail, root, s, a, b);
    } else {
      SubjectLinkStaysInside(mail, root, s, a, b);
    }
  }

  lemma IdLinkStaysInside(mail: Mail, root: string, s: set<nat>, a: string, b: string)
    requires NothingOutside(mail, root, s) && (a, b) in IdLinks(AllEnvelopes(mail))
    ensures SeenId(mail, root, s, a) <==> SeenId(mail, root, s, b)
  {
    hide NothingOutside;
    var e, id :| e in AllEnvelopes(mail) && id in NamedIds(e) && (a, b) == (e.messageId, id);
    var u :| u in mail && e == Env(mail, u);
    assert a in AllIds(Env(mail, u)) && b in AllIds(Env(mail, u));
    if SeenId(mail, root, s, a) {
      SeenCarrierIsInside(mail, root, s, a, u);
    }
    if SeenId(mail, root, s, b) {
      SeenCarrierIsInside(mail, root, s, b, u);
    }
  }

  lemma CloseIsInside(mail: Mail, root: string, s: set<nat>, v: nat, u: nat)
    requires NothingOutside(mail, root, s) && v in s && CloseMail(mail, v, u)
    ensures u in s && u in mail
  {
    hide SharesAnyId, AllIds;
  }

  lemma SubjectLinkStaysInside(mail: Mail, root: string, s: set<nat>, a: string, b: string)
    requires NothingOutside(mail, root, s) && (a, b) in SubjectLinks(AllEnvelopes(mail))
    ensures SeenId(mail, root, s, a) <==> SeenId(mail, root, s, b)
  {
    hide SubjectKey, NonEmpty, Lower, NothingOutside, StandIn;
    var e, f :| e in AllEnvelopes(mail) && f in AllEnvelopes(mail) && Close(TagOf(e), TagOf(f)) && (a, b) == (e.messageId, f.messageId);
    var u :| u in mail && e == Env(mail, u);
    var v :| v in mail && f == Env(mail, v);
    assert CloseMail(mail, u, v) && CloseMail(mail, v, u) && a in AllIds(Env(mail, u)) && b in AllIds(Env(mail, v));
    if SeenId(mail, root, s, a) {
      SeenCarrierIsInside(mail, root, s, a, u);
      CloseIsInside(mail, root, s, u, v);
    }
    if SeenId(mail, root, s, b) {
      SeenCarrierIsInside(mail, root, s, b, v);
      CloseIsInside(mail, root, s, v, u);
    }
  }

  /** Part of a thread is all of it if and only if nothing outside is linked to it. */
  lemma NothingOutsideIsThread(mail: Mail, root: string, s: set<nat>)
    requires root != "" && s <= WholeThread(mail, root)
    ensures s == WholeThread(mail, root) <==> NothingOutside(mail, root, s)
  {
    if NothingOutside(mail, root, s) {
      InsideIsThread(mail, root, s);
    }
    if s == WholeThread(mail, root) {
      ThreadHasNothingOutside(mail, root);
    }
  }

  lemma InsideIsThread(mail: Mail, root: string, s: set<nat>)
    requires NothingOutside(mail, root, s)
    ensures WholeThread(mail, root) <= s
  {
    hide NothingOutside, Links;
    var links := Links(AllEnvelopes(mail));
    var nodes := iset id: string {:trigger SeenId(mail, root, s, id)} | SeenId(mail, root, s, id);
    forall a, b | Adjacent(links, a, b) && a in nodes
      ensures b in nodes
    {
      if (a, b) in links {
        LinkStaysInside(mail, root, s, a, b);
      } else {
        LinkStaysInside(mail, root, s, b, a);
      }
    }
    forall u | u in WholeThread(mail, root)
      ensures u in s
    {
      ClosedContains(links, nodes, root, Env(mail, u).messageId);
      SeenCarrierIsInside(mail, root, s, Env(mail, u).messageId, u);
    }
  }

  lemma ThreadHasNothingOutside(mail: Mail, root: string)
    requires root != ""
    ensures NothingOutside(mail, root, WholeThread(mail, root))
  {
    var s := WholeThread(mail, root);
    forall u | u in mail && root in AllIds(Env(mail, u))
      ensures u in s
    {
      NamedConnects(mail, u, root);
    }
    forall v, u | v in s && u in mail && SharesAnyId(mail, v, u)
      ensures u in s
    {
      var id :| id in AllIds(Env(mail, v)) && id in AllIds(Env(mail, u));
      SharingConnects(mail, v, u, id);
      JoinsThread(mail, root, v, u);
    }
    forall v, u | v in s && CloseMail(mail, v, u)
      ensures u in s
    {
      CloseConnects(mail, v, u);
      JoinsThread(mail, root, v, u);
    }
  }

  // ---- searches that have come to rest ----------------------------------------------------

  /** Every search for an id or subject of a message in `s`, or for the root, finds messages of `s` only, subject links permitting. */
  ghost predicate Settled(mail: Mail, root: string, s: set<nat>) {
    && s <= mail.Keys
    && (forall u :: Starts(mail, root, u) ==> u in s)
    && (forall v, u :: v in s && SharesId(mail, v, u) ==> u in s)
    && (forall v, u :: v in s && CloseMail(mail, v, u) && Findable(mail[u]) ==> u in s)
  }

  /** Whenever a message of `s` names a message without Message-ID by its stand-in id, that one is in `s` as well. */
  ghost predicate StandInsInside(mail: Mail, s: set<nat>) {
    forall u, v :: u in mail && mail[u].headerId == "" && v in s && v in mail && StandIn(u) in AllIds(Env(mail, v)) ==> u in s
  }

  /** Every message linked by its subject to one of `s` whose own subject its normalized text does not find is in `s`. */
  ghost predicate UnfindableInside(mail: Mail, s: set<nat>) {
    forall u, v :: v in s && CloseMail(mail, v, u) && !Findable(mail[u]) ==> u in s
  }

  /**
   * A search that has come to rest found the whole-folder thread if and only if no message was left out that only a
   * stand-in id or a subject its normalized text does not find links to one it found.
   */
  lemma SettledIsThreadIff(mail: Mail, root: string, s: set<nat>)
    requires root != "" && s <= WholeThread(mail, root) && Settled(mail, root, s)
    ensures s == WholeThread(mail, root) <==> StandInsInside(mail, s) && UnfindableInside(mail, s)
  {
    NothingOutsideIsThread(mail, root, s);
    hide WholeThread;
    if StandInsInside(mail, s) && UnfindableInside(mail, s) {
      SettledHasNothingOutside(mail, root, s);
    }
    if NothingOutside(mail, root, s) {
      NothingOutsideHidesNothing(mail, root, s);
    }
  }

  lemma SettledHasNothingOutside(mail: Mail, root: string, s: set<nat>)
    requires root != "" && Settled(mail, root, s) && StandInsInside(mail, s) && UnfindableInside(mail, s)
    ensures NothingOutside(mail, root, s)
  {
    hide CloseMail, Findable;
    forall u | u in mail && root in AllIds(Env(mail, u))
      ensures u in s
    {
      CarriesIsNamed(u, mail[u], root);
      assert Starts(mail, root, u);
    }
    forall v, u | v in s && u in mail && SharesAnyId(mail, v, u)
      ensures u in s
    {
      var id :| id in AllIds(Env(mail, v)) && id in AllIds(Env(mail, u));
      CarriesIsNamed(u, mail[u], id);
      if Carries(mail[u], id) {
        assert SharesId(mail, v, u);
      }
    }
  }

  lemma NothingOutsideHidesNothing(mail: Mail, root: string, s: set<nat>)
    requires NothingOutside(mail, root, s)
    ensures StandInsInside(mail, s) && UnfindableInside(mail, s)
  {
    hide CloseMail, Findable;
    forall u, v | u in mail && mail[u].headerId == "" && v in s && v in mail && StandIn(u) in AllIds(Env(mail, v))
      ensures u in s
    {
      assert Env(mail, u).messageId == StandIn(u) && StandIn(u) in AllIds(Env(mail, u));
      assert SharesAnyId(mail, v, u);
    }
  }

  /**
   * What can be read off the folder before any lookup: no message names another one by its stand-in id, and the subject of
   * every message the fallback may link contains its normalized text.
   */
  predicate NothingHidden(mail: Mail) {
    && (forall u, v :: u in mail && v in mail && mail[u].headerId == "" && StandIn(u) in AllIds(ToEnvelope(v, mail[v])) ==> u == v)
    && (forall u :: u in mail && SubjectKey(ToEnvelope(u, mail[u])).Some? ==> Findable(mail[u]))
  }

  lemma NothingHiddenIsInside(mail: Mail, s: set<nat>)
    requires NothingHidden(mail)
    ensures StandInsInside(mail, s) && UnfindableInside(mail, s)
  {
    hide Findable;
  }
}
