/** What rounds of exact searches learn about a thread, as a function of the folder, the root and the number of rounds. */
module SearchRounds {
  import opened Text
  import opened Graph
  import opened Envelopes
  import opened Folder

  ghost function EnvelopesOf(mail: Mail, known: set<nat>): set<Envelope> {
    set u | u in known && u in mail :: Env(mail, u)
  }

  /** Of the known messages those connected to the root by links of known messages. */
  ghost function Members(mail: Mail, root: string, known: set<nat>): set<nat> {
    set u | u in known && u in mail && Connected(Links(EnvelopesOf(mail, known)), root, Env(mail, u).messageId)
  }

  ghost function MemberIds(mail: Mail, members: set<nat>): set<string> {
    set u, id | u in members && u in mail && id in AllIds(Env(mail, u)) :: id
  }

  ghost function MemberSubjects(mail: Mail, members: set<nat>): set<string> {
    set u | u in members && u in mail && SubjectKey(Env(mail, u)).Some? :: NormalizeSubject(mail[u].subject)
  }

  /** The messages exact searches for these terms return. */
  ghost function Hits(mail: Mail, ids: set<string>, subjects: set<string>): (r: set<nat>)
    ensures r <= mail.Keys
  {
    set u | u in mail && ((exists id :: id in ids && Carries(mail[u], id)) || exists text :: text in subjects && Matches(mail[u], text))
  }

  /** The message a root of the form of a stand-in id names, if its id is the root. */
  ghost function StartingFrom(mail: Mail, root: string): set<nat> {
    set u | u in mail && ParseStandIn(root) == Some(u) && Env(mail, u).messageId == root
  }

  /** The messages known after `k` rounds. */
  ghost function Learnt(mail: Mail, root: string, k: nat): (known: set<nat>)
    ensures known <= mail.Keys
    decreases k, 0
  {
    if k == 0 then StartingFrom(mail, root)
    else Learnt(mail, root, k - 1) + Hits(mail, TermIds(mail, root, k - 1), TermSubjects(mail, root, k - 1))
  }

  /** The thread as it is known after `k` rounds. */
  ghost function Found(mail: Mail, root: string, k: nat): (r: set<nat>)
    ensures r <= mail.Keys
    decreases k, 1
  {
    Members(mail, root, Learnt(mail, root, k))
  }

  /** The ids that have been searched or are to be searched after `k` rounds. */
  ghost function TermIds(mail: Mail, root: string, k: nat): set<string>
    decreases k, 2
  {
    {root} + if k == 0 then {} else MemberIds(mail, Found(mail, root, k))
  }

  ghost function TermSubjects(mail: Mail, root: string, k: nat): set<string>
    decreases k, 2
  {
    if k == 0 then {} else MemberSubjects(mail, Found(mail, root, k))
  }

  /** Round `k` brought no new term. */
  ghost predicate Rests(mail: Mail, root: string, k: nat) {
    && k > 0 && TermIds(mail, root, k) <= TermIds(mail, root, k - 1)
    && TermSubjects(mail, root, k) <= TermSubjects(mail, root, k - 1)
  }

  lemma MembersGrow(mail: Mail, root: string, known: set<nat>, more: set<nat>)
    requires known <= more
    ensures Members(mail, root, known) <= Members(mail, root, more)
  {
    LinksMonotone(EnvelopesOf(mail, known), EnvelopesOf(mail, more));
    forall u | u in Members(mail, root, known)
      ensures u in Members(mail, root, more)
    {
      Monotone(Links(EnvelopesOf(mail, known)), Links(EnvelopesOf(mail, more)), root, Env(mail, u).messageId);
    }
  }

  lemma TermsGrow(mail: Mail, root: string, k: nat)
    ensures TermIds(mail, root, k) <= TermIds(mail, root, k + 1)
    ensures TermSubjects(mail, root, k) <= TermSubjects(mail, root, k + 1)
  {
    if k > 0 {
      MembersGrow(mail, root, Learnt(mail, root, k), Learnt(mail, root, k + 1));
    }
  }

  /** A round without new terms is followed by none that learns anything. */
  lemma {:induction false} RestIsForever(mail: Mail, root: string, k: nat, n: nat)
    requires Rests(mail, root, k) && k <= n
    ensures Rests(mail, root, n) && Learnt(mail, root, n) == Learnt(mail, root, k)
    decreases n - k
  {
    hide Hits, Members, MemberIds, MemberSubjects;
    if k < n {
      RestIsForever(mail, root, k, n - 1);
      TermsGrow(mail, root, n - 2);
      assert TermIds(mail, root, n - 1) == TermIds(mail, root, n - 2);
      assert TermSubjects(mail, root, n - 1) == TermSubjects(mail, root, n - 2);
      assert Learnt(mail, root, n) == Learnt(mail, root, n - 1);
      assert Found(mail, root, n) == Found(mail, root, n - 1);
    }
  }
}
