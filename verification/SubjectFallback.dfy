/** The subject fallback's single pass in date order, and why it links as much as comparing every pair would. */
module SubjectFallback {
  import opened Text
  import opened Graph
  import opened Sorting
  import opened Envelopes
  import opened Conversations

  function Tags(list: seq<Envelope>): (r: seq<Tag>)
    ensures |r| == |list|
    ensures forall i :: 0 <= i < |list| ==> r[i] == TagOf(list[i])
  {
    seq(|list|, i requires 0 <= i < |list| => TagOf(list[i]))
  }

  /** The last entry with the given subject key. */
  function LastWithKey(tags: seq<Tag>, key: string): (r: Option<Tag>) {
    if tags == [] then None
    else if tags[|tags| - 1].key == Some(key) then Some(tags[|tags| - 1])
    else LastWithKey(tags[..|tags| - 1], key)
  }

  /** The link the pass draws at `t` after the entries `before`. */
  function LinkAt(before: seq<Tag>, t: Tag): set<(string, string)> {
    if t.key.None? then {} else
    var prev := LastWithKey(before, t.key.value);
    if prev.Some? && t.date - prev.value.date <= SUBJECT_FALLBACK_GAP_MS then {(t.id, prev.value.id)} else {}
  }

  /** All the links the pass draws. */
  function PassLinks(tags: seq<Tag>): set<(string, string)> {
    if tags == [] then {}
    else PassLinks(tags[..|tags| - 1]) + LinkAt(tags[..|tags| - 1], tags[|tags| - 1])
  }

  lemma PassStep(tags: seq<Tag>, j: nat)
    requires j < |tags|
    ensures tags[..j + 1] == tags[..j] + [tags[j]]
    ensures PassLinks(tags[..j + 1]) == PassLinks(tags[..j]) + LinkAt(tags[..j], tags[j])
  {
    assert tags[..j + 1][..j] == tags[..j];
  }

  ghost predicate ByDate(tags: seq<Tag>) {
    forall i, j :: 0 <= i < j < |tags| ==> tags[i].date <= tags[j].date
  }

  /** The links the pass draws over a list of messages, oldest first. */
  ghost function FallbackLinks(envs: seq<Envelope>): set<(string, string)> {
    PassLinks(Tags(SortBy(envs, DateOf)))
  }

  lemma {:induction false} LastWithKeyIndex(tags: seq<Tag>, key: string, p: nat) returns (l: nat)
    requires p < |tags| && tags[p].key == Some(key)
    ensures p <= l < |tags| && tags[l].key == Some(key) && LastWithKey(tags, key) == Some(tags[l])
  {
    if tags[|tags| - 1].key == Some(key) {
      l := |tags| - 1;
    } else {
      l := LastWithKeyIndex(tags[..|tags| - 1], key, p);
    }
  }

  lemma {:induction false} LastWithKeyIsThere(tags: seq<Tag>, key: string) returns (l: nat)
    requires LastWithKey(tags, key).Some?
    ensures l < |tags| && tags[l].key == Some(key) && LastWithKey(tags, key) == Some(tags[l])
  {
    if tags[|tags| - 1].key == Some(key) {
      l := |tags| - 1;
    } else {
      l := LastWithKeyIsThere(tags[..|tags| - 1], key);
    }
  }

  /** The pass links only entries that are close when compared directly. */
  lemma {:induction false} PassLinksAreClose(tags: seq<Tag>, x: string, y: string) returns (i: nat, j: nat)
    requires ByDate(tags) && (x, y) in PassLinks(tags)
    ensures i < |tags| && j < |tags| && tags[i].id == x && tags[j].id == y && Close(tags[i], tags[j])
  {
    var before, t := tags[..|tags| - 1], tags[|tags| - 1];
    if (x, y) in PassLinks(before) {
      i, j := PassLinksAreClose(before, x, y);
    } else {
      i := |tags| - 1;
      j := LastWithKeyIsThere(before, t.key.value);
      assert tags[j].date <= tags[i].date;
    }
  }

  /** Two close entries are connected through the consecutive ones of their key between them. */
  lemma {:induction false} PassConnects(tags: seq<Tag>, p: nat, q: nat)
    requires ByDate(tags) && p < q < |tags| && Close(tags[p], tags[q])
    ensures Connected(PassLinks(tags), tags[p].id, tags[q].id)
  {
    var before, t := tags[..|tags| - 1], tags[|tags| - 1];
    if q < |tags| - 1 {
      PassConnects(before, p, q);
      Monotone(PassLinks(before), PassLinks(tags), tags[p].id, tags[q].id);
    } else {
      var l := LastWithKeyIndex(before, t.key.value, p);
      assert tags[p].date <= tags[l].date <= t.date;
      assert (t.id, tags[l].id) in LinkAt(before, t);
      Step(PassLinks(tags), tags[l].id, t.id);
      if l != p {
        PassConnects(before, p, l);
        Monotone(PassLinks(before), PassLinks(tags), tags[p].id, tags[l].id);
        Transitive(PassLinks(tags), tags[p].id, tags[l].id, t.id);
      }
    }
  }

  lemma SortedTagsAreByDate(envs: seq<Envelope>)
    ensures ByDate(Tags(SortBy(envs, DateOf)))
  {
    SortOrders(envs, DateOf);
    var list := SortBy(envs, DateOf);
    forall i, j | 0 <= i < j < |list|
      ensures Tags(list)[i].date <= Tags(list)[j].date
    {
      assert DateOf(list[i]) <= DateOf(list[j]);
    }
  }

  lemma FallbackLinkIsSubjectLink(envs: seq<Envelope>, x: string, y: string)
    requires (x, y) in FallbackLinks(envs)
    ensures (x, y) in SubjectLinks(Elements(envs))
  {
    var list := SortBy(envs, DateOf);
    SortedTagsAreByDate(envs);
    var i, j := PassLinksAreClose(Tags(list), x, y);
    var e, f := list[i], list[j];
    assert Tags(list)[i] == TagOf(e) && Tags(list)[j] == TagOf(f);
    SortPermutes(envs, DateOf);
    SubjectLinkOf(Elements(envs), e, f);
  }

  lemma SubjectLinkOf(all: set<Envelope>, e: Envelope, f: Envelope)
    requires e in all && f in all && Close(TagOf(e), TagOf(f))
    ensures (e.messageId, f.messageId) in SubjectLinks(all)
  {
  }

  lemma SubjectLinksAreFollowed(envs: seq<Envelope>, x: string, y: string)
    requires (x, y) in SubjectLinks(Elements(envs))
    ensures Connected(FallbackLinks(envs), x, y)
  {
    hide SubjectKey, Connected;
    var e, f :| e in Elements(envs) && f in Elements(envs) && Close(TagOf(e), TagOf(f)) && (x, y) == (e.messageId, f.messageId);
    var list := SortBy(envs, DateOf);
    SortPermutes(envs, DateOf);
    SortedTagsAreByDate(envs);
    var p :| 0 <= p < |list| && list[p] == e;
    var q :| 0 <= q < |list| && list[q] == f;
    if p == q {
      Reflexive(FallbackLinks(envs), x);
    } else if p < q {
      PassConnects(Tags(list), p, q);
    } else {
      PassConnects(Tags(list), q, p);
      Symmetric(FallbackLinks(envs), y, x);
    }
  }

  ghost function DrawnLinks(envs: seq<Envelope>): set<(string, string)> {
    IdLinks(Elements(envs)) + FallbackLinks(envs)
  }

  lemma DrawnIsLink(envs: seq<Envelope>)
    ensures DrawnLinks(envs) <= Links(Elements(envs))
  {
    forall link | link in FallbackLinks(envs)
      ensures link in SubjectLinks(Elements(envs))
    {
      FallbackLinkIsSubjectLink(envs, link.0, link.1);
    }
  }

  lemma LinkIsFollowed(envs: seq<Envelope>, a: string, b: string)
    requires (a, b) in Links(Elements(envs))
    ensures Connected(DrawnLinks(envs), a, b)
  {
    if (a, b) in IdLinks(Elements(envs)) {
      Step(DrawnLinks(envs), a, b);
    } else {
      SubjectLinksAreFollowed(envs, a, b);
      Monotone(FallbackLinks(envs), DrawnLinks(envs), a, b);
    }
  }

  /**
   * Linking each message to the last earlier one of its key, when at most 14 days lie between them, connects exactly
   * what linking every pair of a key at most 14 days apart connects.
   */
  lemma PassEqualsAllPairs(envs: seq<Envelope>, x: string, y: string)
    ensures Connected(DrawnLinks(envs), x, y) <==> Connected(Links(Elements(envs)), x, y)
  {
    var drawn, all := DrawnLinks(envs), Links(Elements(envs));
    DrawnIsLink(envs);
    if Connected(drawn, x, y) {
      Monotone(drawn, all, x, y);
    }
    if Connected(all, x, y) {
      forall a, b | (a, b) in all
        ensures Connected(drawn, a, b)
      {
        LinkIsFollowed(envs, a, b);
      }
      Simulates(all, drawn, x, y);
    }
  }
}
