/**
 * What the subject fallback compares, said of the raw fields of messages: which reply markers a subject loses, how its
 * words are compared, and when two messages are linked.
 */
module Subjects {
  import opened Text
  import opened Envelopes
  import opened FindableSubjects

  // ---- reply markers ------------------------------------------------------------------------

  /** One of the seven reply words, in any letter case. */
  predicate IsReplyWord(w: string) {
    var l := Lower(w);
    l == "re" || l == "fw" || l == "fwd" || l == "aw" || l == "wg" || l == "sv" || l == "vs"
  }

  predicate AllSpace(s: string) {
    forall i :: 0 <= i < |s| ==> IsSpace(s[i])
  }

  /** The text begins with a marker: a reply word and a colon, white space allowed before and between. */
  ghost predicate Marked(s: string) {
    exists a, w, b, t :: AllSpace(a) && IsReplyWord(w) && AllSpace(b) && s == a + w + b + ":" + t
  }

  lemma ReplyWordIsListed(w: string)
    ensures IsReplyWord(w) <==> exists k :: 0 <= k < |REPLY_WORDS| && REPLY_WORDS[k] == Lower(w)
  {
    var l := Lower(w);
    assert l == "re" ==> REPLY_WORDS[0] == l;
    assert l == "fwd" ==> REPLY_WORDS[1] == l;
    assert l == "fw" ==> REPLY_WORDS[2] == l;
    assert l == "aw" ==> REPLY_WORDS[3] == l;
    assert l == "wg" ==> REPLY_WORDS[4] == l;
    assert l == "sv" ==> REPLY_WORDS[5] == l;
    assert l == "vs" ==> REPLY_WORDS[6] == l;
  }

  /** Reply words hold letters only. */
  lemma ReplyWordIsLetters(w: string)
    requires IsReplyWord(w)
    ensures |w| >= 2 && forall i :: 0 <= i < |w| ==> 'a' <= LowerChar(w[i]) <= 'z'
  {
    assert forall i :: 0 <= i < |w| ==> Lower(w)[i] == LowerChar(w[i]);
  }

  lemma {:induction false} SkippingAllSpace(a: string, s: string)
    requires AllSpace(a)
    ensures SkipSpaces(a + s) == SkipSpaces(s)
  {
    if a == "" {
      assert a + s == s;
    } else {
      SkippingAllSpace(a[1..], s);
      assert (a + s)[1..] == a[1..] + s;
    }
  }

  lemma {:induction false} SkippedIsSpace(s: string) returns (a: string)
    ensures AllSpace(a) && s == a + SkipSpaces(s)
  {
    if s != "" && IsSpace(s[0]) {
      var rest := SkippedIsSpace(s[1..]);
      a := [s[0]] + rest;
    } else {
      a := "";
    }
  }

  /** The marker of the word `w` is found. */
  lemma OwnMarker(w: string, b: string, t: string)
    requires IsReplyWord(w) && AllSpace(b)
    ensures AfterMarker(w + b + ":" + t, Lower(w)) == Some(SkipSpaces(t))
  {
    var s := w + b + ":" + t;
    assert s[..|w|] == w && s[|w|..] == b + (":" + t);
    SkippingAllSpace(b, ":" + t);
    assert (":" + t)[1..] == t && (":" + t)[0] == ':';
  }

  /** No other word finds a marker there. */
  lemma OtherMarker(w: string, b: string, t: string, v: string)
    requires IsReplyWord(w) && AllSpace(b) && IsReplyWord(v) && Lower(v) == v != Lower(w)
    ensures AfterMarker(w + b + ":" + t, v).None?
  {
    var s := w + b + ":" + t;
    ReplyWordIsLetters(w);
    ReplyWordIsLetters(v);
    hide IsReplyWord;
    if |v| < |w| {
      assert s[|v|..][0] == w[|v|];
      assert SkipSpaces(s[|v|..]) == s[|v|..];
    } else if |w| < |v| {
      assert s[|w|] == if b == "" then ':' else b[0];
      assert |v| <= |s| ==> Lower(s[..|v|])[|w|] == LowerChar(s[|w|]);
      assert LowerChar(v[|w|]) == Lower(v)[|w|] == v[|w|];
    } else {
      assert s[..|v|] == w;
    }
  }

  lemma {:induction false} MarkerFound(w: string, b: string, t: string, k: nat)
    requires IsReplyWord(w) && AllSpace(b) && k <= |REPLY_WORDS|
    requires exists j :: k <= j < |REPLY_WORDS| && REPLY_WORDS[j] == Lower(w)
    ensures AfterAnyMarker(w + b + ":" + t, k) == Some(SkipSpaces(t))
    decreases |REPLY_WORDS| - k
  {
    var v := REPLY_WORDS[k];
    hide AfterMarker, AllSpace, IsReplyWord;
    if v == Lower(w) {
      OwnMarker(w, b, t);
    } else {
      ListedIsReplyWord(k);
      OtherMarker(w, b, t, v);
      MarkerFound(w, b, t, k + 1);
    }
  }

  lemma ListedIsReplyWord(k: nat)
    requires k < |REPLY_WORDS|
    ensures IsReplyWord(REPLY_WORDS[k]) && Lower(REPLY_WORDS[k]) == REPLY_WORDS[k]
  {
    var v := REPLY_WORDS[k];
    assert v == "re" || v == "fwd" || v == "fw" || v == "aw" || v == "wg" || v == "sv" || v == "vs";
  }

  /** Whatever its word and letter case, and whatever white space surrounds it, a marker does not count. */
  lemma MarkersAreIgnored(a: string, w: string, b: string, c: string, t: string)
    requires AllSpace(a) && IsReplyWord(w) && AllSpace(b) && AllSpace(c)
    ensures NormalizeSubject(a + w + b + ":" + c + t) == NormalizeSubject(t)
  {
    hide *;
    assert a + w + b + ":" + c + t == a + w + b + ":" + (c + t);
    MarkerIsIgnored(a, w, b, c + t);
    SkippingAllSpace(c, t);
    OnlySpaceDiffers(c + t, t);
  }

  lemma OnlySpaceDiffers(s: string, t: string)
    requires SkipSpaces(s) == SkipSpaces(t)
    ensures NormalizeSubject(s) == NormalizeSubject(t)
  {
  }

  lemma MarkerIsIgnored(a: string, w: string, b: string, t: string)
    requires AllSpace(a) && IsReplyWord(w) && AllSpace(b)
    ensures NormalizeSubject(a + w + b + ":" + t) == NormalizeSubject(t)
  {
    var s := w + b + ":" + t;
    ReplyWordIsListed(w);
    ReplyWordIsLetters(w);
    assert !IsSpace(s[0]);
    assert a + w + b + ":" + t == a + s;
    hide AllSpace, IsReplyWord, AfterAnyMarker, Collapse, Lower;
    SkippingAllSpace(a, s);
    MarkerFound(w, b, t, 0);
  }

  lemma {:induction false} FoundIsMarked(s: string, k: nat)
    requires k <= |REPLY_WORDS| && AfterAnyMarker(s, k).Some?
    ensures Marked(s)
    decreases |REPLY_WORDS| - k
  {
    var v := REPLY_WORDS[k];
    if AfterMarker(s, v).Some? {
      var w, rest := s[..|v|], s[|v|..];
      ListedIsReplyWord(k);
      var b := SkippedIsSpace(rest);
      var t := SkipSpaces(rest)[1..];
      assert s == "" + w + b + ":" + t;
    } else {
      FoundIsMarked(s, k + 1);
    }
  }

  lemma UnmarkedAfterSpace(a: string, s: string)
    requires AllSpace(a) && Marked(s)
    ensures Marked(a + s)
  {
    var a', w, b, t :| AllSpace(a') && IsReplyWord(w) && AllSpace(b) && s == a' + w + b + ":" + t;
    assert AllSpace(a + a') && a + s == (a + a') + w + b + ":" + t;
  }

  lemma UnmarkedKeepsAll(s: string)
    requires !Marked(s)
    ensures StripMarkers(SkipSpaces(s)) == SkipSpaces(s)
  {
    if AfterAnyMarker(SkipSpaces(s)).Some? {
      FoundIsMarked(SkipSpaces(s), 0);
      var a := SkippedIsSpace(s);
      UnmarkedAfterSpace(a, SkipSpaces(s));
    }
  }

  // ---- words --------------------------------------------------------------------------------

  /** How many characters come before the first white space. */
  function WordEnd(s: string): (n: nat)
    ensures n <= |s| && (forall i :: 0 <= i < n ==> !IsSpace(s[i])) && (n < |s| ==> IsSpace(s[n]))
  {
    if s == "" || IsSpace(s[0]) then 0 else 1 + WordEnd(s[1..])
  }

  /** The words of a text, whatever white space stands between them. */
  function Words(s: string): seq<string>
    decreases |s|
  {
    if s == "" then []
    else if IsSpace(s[0]) then Words(s[1..])
    else [s[..WordEnd(s)]] + Words(s[WordEnd(s)..])
  }

  function Joined(words: seq<string>): string {
    if words == [] then "" else if |words| == 1 then words[0] else words[0] + " " + Joined(words[1..])
  }

  lemma {:induction false} WordsAfterSpace(s: string)
    ensures Words(SkipSpaces(s)) == Words(s)
  {
    if s != "" && IsSpace(s[0]) {
      WordsAfterSpace(s[1..]);
    }
  }

  lemma {:induction false} DroppingBehind(x: string, y: string)
    ensures DropTrailingSpaces(y) != "" ==> DropTrailingSpaces(x + y) == x + DropTrailingSpaces(y)
    ensures DropTrailingSpaces(y) == "" ==> DropTrailingSpaces(x + y) == DropTrailingSpaces(x)
  {
    if y == "" {
      assert x + y == x;
    } else if IsSpace(y[|y| - 1]) {
      DroppingBehind(x, y[..|y| - 1]);
      assert (x + y)[..|x + y| - 1] == x + y[..|y| - 1];
    }
  }

  /** One word, white space and what follows: the word and the rest are tidied apart. */
  lemma TidyStep(word: string, rest: string)
    requires word != "" && !IsSpace(word[|word| - 1]) && rest != "" && IsSpace(rest[0])
    requires forall i :: 0 <= i < |word| ==> !IsSpace(word[i])
    ensures var tail := DropTrailingSpaces(Collapse(SkipSpaces(rest[1..])));
      DropTrailingSpaces(Collapse(word + rest)) == if tail == "" then word else word + " " + tail
  {
    hide *;
    var more := Collapse(SkipSpaces(rest[1..]));
    CollapseSpace(rest);
    CollapsingAWord(word, rest);
    NoTrailingSpace(word);
    EndBlank(word);
    assert word + (" " + more) == word + " " + more;
    DroppingBehind(word + " ", more);
  }

  lemma CollapseSpace(s: string)
    requires s != "" && IsSpace(s[0])
    ensures Collapse(s) == " " + Collapse(SkipSpaces(s[1..]))
  {
  }

  lemma EndBlank(word: string)
    requires word != "" && !IsSpace(word[|word| - 1])
    ensures DropTrailingSpaces(word + " ") == word
  {
    assert (word + " ")[..|word|] == word;
  }

  /** A text that does not start with white space, collapsed and trimmed, is its words with single blanks between them. */
  lemma {:induction false} TidyIsJoined(s: string)
    requires s != "" ==> !IsSpace(s[0])
    ensures DropTrailingSpaces(Collapse(s)) == Joined(Words(s))
    ensures s != "" ==> Words(s) != [] && Joined(Words(s)) != ""
    ensures s == "" ==> Words(s) == []
    decreases |s|
  {
    if s != "" {
      var word, rest := s[..WordEnd(s)], s[WordEnd(s)..];
      assert s == word + rest && word != "" && !IsSpace(word[|word| - 1]);
      assert Words(s) == [word] + Words(rest);
      if rest == "" {
        CollapsingAWord(word, "");
        NoTrailingSpace(word);
        assert word + "" == word;
      } else {
        var next := SkipSpaces(rest[1..]);
        assert Words(rest) == Words(rest[1..]);
        hide Collapse, DropTrailingSpaces, Words, SkipSpaces, IsSpace;
        WordsAfterSpace(rest[1..]);
        TidyIsJoined(next);
        TidyStep(word, rest);
      }
    }
  }

  lemma CollapseAfterSpace(s: string)
    ensures SkipSpaces(Collapse(s)) == Collapse(SkipSpaces(s))
  {
    var t := SkipSpaces(s);
    assert SkipSpaces(Collapse(t)) == Collapse(t);
    if s != "" && IsSpace(s[0]) {
      assert Collapse(s)[1..] == Collapse(t);
    }
  }

  /** A subject without a marker is compared by its words, in order, whatever their letter case. */
  lemma UnmarkedIsItsWords(s: string)
    requires !Marked(s)
    ensures NormalizeSubject(s) == Lower(Joined(Words(s)))
  {
    var t := SkipSpaces(s);
    UnmarkedKeepsAll(s);
    hide Collapse, DropTrailingSpaces, Marked, StripMarkers, Lower;
    CollapseAfterSpace(t);
    assert SkipSpaces(t) == t;
    TidyIsJoined(t);
    WordsAfterSpace(s);
  }

  // ---- links --------------------------------------------------------------------------------

  /** The sender a message is compared by: the lower-cased address, nothing when there is none. */
  function SenderOf(e: Envelope): string {
    if e.from.None? then "" else Lower(e.from.value.address)
  }

  lemma KeysAgreeIff(e: Envelope, f: Envelope)
    ensures SubjectKey(e).Some? && SubjectKey(e) == SubjectKey(f) <==>
      && e.references == [] && e.inReplyTo == "" && f.references == [] && f.inReplyTo == ""
      && NormalizeSubject(e.subject) == NormalizeSubject(f.subject) != "" && SenderOf(e) == SenderOf(f)
  {
    hide NormalizeSubject, Lower;
    if SubjectKey(e).Some? && SubjectKey(e) == SubjectKey(f) {
      SameKeySameSubject(e, f);
      var s := NormalizeSubject(e.subject);
      assert SubjectKey(e).value[|s| + 1..] == SenderOf(e);
      assert SubjectKey(f).value[|s| + 1..] == SenderOf(f);
    }
  }

  /**
   * Two messages share a subject link if and only if neither names another message, their subjects are the same but for
   * markers, white space and letter case, and not empty, their senders are the same, and at most 14 days lie between them.
   */
  lemma CloseIff(e: Envelope, f: Envelope)
    ensures Close(TagOf(e), TagOf(f)) <==>
      && e.references == [] && e.inReplyTo == "" && f.references == [] && f.inReplyTo == ""
      && NormalizeSubject(e.subject) == NormalizeSubject(f.subject) != "" && SenderOf(e) == SenderOf(f)
      && -1_209_600_000 <= e.date - f.date <= 1_209_600_000
  {
    hide SubjectKey, NormalizeSubject, SenderOf;
    KeysAgreeIff(e, f);
  }

  /** The links of a list of messages in terms of their raw fields. */
  lemma LinksAre(envs: set<Envelope>, x: string, y: string)
    ensures (x, y) in Links(envs) <==>
      || (exists e :: e in envs && x == e.messageId && y != "" && (y in e.references || y == e.inReplyTo))
      || (exists e, f :: e in envs && f in envs && x == e.messageId && y == f.messageId && Close(TagOf(e), TagOf(f)))
  {
    hide Close, TagOf;
    assert (x, y) in IdLinks(envs) <==> exists e :: e in envs && x == e.messageId && y in NamedIds(e);
    assert forall e: Envelope :: y in NamedIds(e) <==> y != "" && (y in e.references || y == e.inReplyTo);
  }

  /** Among messages that all name others nothing but the names links them. */
  lemma RepliesAreLinkedByIdsOnly(envs: set<Envelope>)
    requires forall e :: e in envs ==> e.references != [] || e.inReplyTo != ""
    ensures Links(envs) == IdLinks(envs)
  {
    forall e, f | e in envs && f in envs
      ensures !Close(TagOf(e), TagOf(f))
    {
      CloseIff(e, f);
    }
  }
}
