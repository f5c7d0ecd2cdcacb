/** Which subjects a search for their own normalized text finds. */
module FindableSubjects {
  import opened Text
  import opened Envelopes
  import opened Folder

  ghost predicate IsSuffix(t: string, s: string) {
    |t| <= |s| && t == s[|s| - |t|..]
  }

  lemma SuffixOfSuffix(u: string, t: string, s: string)
    requires IsSuffix(u, t) && IsSuffix(t, s)
    ensures IsSuffix(u, s)
  {
  }

  lemma {:induction false} SkippingIsSuffix(s: string)
    ensures IsSuffix(SkipSpaces(s), s)
  {
    if s != "" && IsSpace(s[0]) {
      SkippingIsSuffix(s[1..]);
    }
  }

  lemma MarkerIsSuffix(s: string, word: string)
    requires AfterMarker(s, word).Some?
    ensures IsSuffix(AfterMarker(s, word).value, s)
  {
    var rest := SkipSpaces(s[|word|..]);
    SkippingIsSuffix(s[|word|..]);
    SkippingIsSuffix(rest[1..]);
    SuffixOfSuffix(SkipSpaces(rest[1..]), rest, s[|word|..]);
    SuffixOfSuffix(SkipSpaces(rest[1..]), s[|word|..], s);
  }

  lemma {:induction false} AnyMarkerIsSuffix(s: string, k: nat)
    requires k <= |REPLY_WORDS| && AfterAnyMarker(s, k).Some?
    ensures IsSuffix(AfterAnyMarker(s, k).value, s)
    decreases |REPLY_WORDS| - k
  {
    if AfterMarker(s, REPLY_WORDS[k]).Some? {
      MarkerIsSuffix(s, REPLY_WORDS[k]);
    } else {
      AnyMarkerIsSuffix(s, k + 1);
    }
  }

  lemma {:induction false} StrippingIsSuffix(s: string)
    ensures IsSuffix(StripMarkers(s), s)
    decreases |s|
  {
    var rest := AfterAnyMarker(s);
    if rest.Some? {
      AnyMarkerIsSuffix(s, 0);
      StrippingIsSuffix(rest.value);
      SuffixOfSuffix(StripMarkers(rest.value), rest.value, s);
    }
  }

  /** The only white space is blanks, never two in a row. */
  predicate SingleBlanks(s: string) {
    forall i :: 0 <= i < |s| && IsSpace(s[i]) ==> s[i] == ' ' && (i + 1 < |s| ==> !IsSpace(s[i + 1]))
  }

  lemma {:induction false} CollapsingKeeps(s: string)
    requires SingleBlanks(s)
    ensures Collapse(s) == s
    decreases |s|
  {
    if s != "" {
      assert s == [s[0]] + s[1..];
      assert forall i :: 0 <= i < |s| - 1 ==> s[1..][i] == s[i + 1];
      CollapsingKeeps(s[1..]);
    }
  }

  lemma SuffixKeepsBlanks(t: string, s: string)
    requires SingleBlanks(s) && IsSuffix(t, s)
    ensures SingleBlanks(t)
  {
    assert forall i :: 0 <= i < |t| ==> t[i] == s[|s| - |t| + i];
  }

  lemma LowerOccurs(n: string, u: string, s: string)
    requires n <= u && IsSuffix(u, s)
    ensures Within(Lower(n), Lower(s))
  {
    var at := |s| - |u|;
    assert forall i :: 0 <= i < |n| ==> n[i] == s[at + i];
    assert Lower(s)[at..at + |n|] == Lower(n);
    assert OccursAt(Lower(n), Lower(s), at);
  }

  /** A subject with single blanks contains its normalized text, so the lookup's search finds the message. */
  lemma SingleBlanksAreFindable(m: Message)
    requires SingleBlanks(m.subject)
    ensures Findable(m)
  {
    hide Within, Lower, SingleBlanks, IsSuffix, StripMarkers, SkipSpaces, DropTrailingSpaces, Collapse;
    var s := m.subject;
    var t := StripMarkers(SkipSpaces(s));
    SkippingIsSuffix(s);
    StrippingIsSuffix(SkipSpaces(s));
    SuffixOfSuffix(t, SkipSpaces(s), s);
    SuffixKeepsBlanks(t, s);
    CollapsingKeeps(t);
    SkippingIsSuffix(t);
    SuffixOfSuffix(SkipSpaces(t), t, s);
    LowerOccurs(DropTrailingSpaces(SkipSpaces(t)), SkipSpaces(t), s);
  }

  // ---- a subject that is not found ----------------------------------------------------------

  lemma {:induction false} NoColonNoMarker(s: string, k: nat)
    requires k <= |REPLY_WORDS| && ':' !in s
    ensures AfterAnyMarker(s, k).None?
    decreases |REPLY_WORDS| - k
  {
    if k < |REPLY_WORDS| {
      if StartsWithWord(s, REPLY_WORDS[k]) {
        var tail := s[|REPLY_WORDS[k]|..];
        SkippingIsSuffix(tail);
        assert SkipSpaces(tail) != "" ==> SkipSpaces(tail)[0] in s;
      }
      NoColonNoMarker(s, k + 1);
    }
  }

  lemma {:induction false} CollapsingAWord(word: string, rest: string)
    requires forall i :: 0 <= i < |word| ==> !IsSpace(word[i])
    ensures Collapse(word + rest) == word + Collapse(rest)
  {
    if word == "" {
      assert word + rest == rest;
    } else {
      assert (word + rest)[1..] == word[1..] + rest;
      CollapsingAWord(word[1..], rest);
    }
  }

  lemma NoTrailingSpace(s: string)
    requires s != "" && !IsSpace(s[|s| - 1])
    ensures DropTrailingSpaces(s) == s
  {
  }

  predicate AreWords(a: string, b: string) {
    a != "" && b != "" && forall c :: c in a || c in b ==> !IsSpace(c) && c != ':'
  }

  lemma TwoBlanksCollapse(b: string)
    requires forall i :: 0 <= i < |b| ==> !IsSpace(b[i])
    ensures Collapse("  " + b) == " " + b
  {
    assert ("  " + b)[1..] == " " + b && (" " + b)[1..] == b;
    assert SkipSpaces(b) == b;
    CollapsingAWord(b, "");
    assert b + "" == b;
  }

  lemma TwoWordsCollapse(a: string, b: string)
    requires AreWords(a, b)
    ensures Collapse(a + "  " + b) == a + " " + b
  {
    CollapsingAWord(a, "  " + b);
    TwoBlanksCollapse(b);
    hide Collapse, IsSpace;
    assert a + "  " + b == a + ("  " + b) && a + " " + b == a + (" " + b);
  }

  lemma NoMarkerNoStripping(s: string)
    requires ':' !in s
    ensures StripMarkers(s) == s
  {
    NoColonNoMarker(s, 0);
  }

  lemma NoLeadingSpace(s: string)
    requires s != "" && !IsSpace(s[0])
    ensures SkipSpaces(s) == s
  {
  }

  /** Two words with two blanks between them: the normalized text has one. */
  lemma TwoBlanksBecomeOne(a: string, b: string)
    requires AreWords(a, b)
    ensures NormalizeSubject(a + "  " + b) == Lower(a + " " + b)
  {
    var s, c := a + "  " + b, a + " " + b;
    assert s[0] == a[0] == c[0] && c[|c| - 1] == b[|b| - 1] && a[0] in a && b[|b| - 1] in b;
    assert forall i :: 0 <= i < |s| ==> s[i] == ' ' || s[i] in a || s[i] in b;
    hide IsSpace, SkipSpaces, StripMarkers, Collapse, DropTrailingSpaces, Lower;
    NoLeadingSpace(s);
    NoMarkerNoStripping(s);
    TwoWordsCollapse(a, b);
    NoLeadingSpace(c);
    NoTrailingSpace(c);
  }

  /** A text with one blank at `k` does not occur in one with two blanks there and one character more. */
  lemma OneBlankIsNotWithinTwo(n: string, s: string, k: nat)
    requires |s| == |n| + 1 && 0 < k && k + 1 < |n| && s[k] == s[k + 1] == ' '
    requires n[k - 1] != ' ' && n[k + 1] != ' '
    ensures !Within(n, s)
  {
    DiffersAt(n, s, 0, k + 1);
    DiffersAt(n, s, 1, k - 1);
  }

  /** Such a subject does not contain its normalized text. */
  lemma TwoBlanksAreNotFound(a: string, b: string, m: Message)
    requires AreWords(a, b) && m.subject == a + "  " + b
    ensures !Findable(m)
  {
    var c, s := a + " " + b, a + "  " + b;
    assert c[|a| - 1] == a[|a| - 1] && c[|a| + 1] == b[0] && a[|a| - 1] in a && b[0] in b;
    assert s[|a|] == s[|a| + 1] == ' ' && LowerChar(' ') == ' ';
    LoweringKeepsSpaces(c[|a| - 1]);
    LoweringKeepsSpaces(c[|a| + 1]);
    TwoBlanksBecomeOne(a, b);
    hide AreWords, NormalizeSubject, Within, IsSpace, LowerChar;
    OneBlankIsNotWithinTwo(Lower(c), Lower(s), |a|);
  }

  lemma DiffersAt(part: string, s: string, i: nat, j: nat)
    requires j < |part| && (i + j < |s| ==> s[i + j] != part[j])
    ensures !OccursAt(part, s, i)
  {
    if i + |part| <= |s| {
      assert s[i..i + |part|][j] == s[i + j];
    }
  }

  lemma LoweringKeepsSpaces(c: char)
    requires !IsSpace(c)
    ensures LowerChar(c) != ' '
  {
  }
}
