/** Addresses as they are reported: texts, and the plain form the ban rules look them up by. */
module Addresses {
  import opened Text
  import Envelopes

  function Trim(s: string): string {
    Envelopes.DropTrailingSpaces(Envelopes.SkipSpaces(s))
  }

  /** `n` groups of digits with dots between them. */
  predicate DigitGroups(s: string, n: nat)
    decreases n
  {
    var d := LeadingDigits(s);
    && n > 0 && d > 0
    && if n == 1 then d == |s| else d < |s| && s[d] == '.' && DigitGroups(s[d + 1..], n - 1)
  }

  const MAPPED := "::ffff:"

  /** The prefix of IPv4-mapped IPv6 addresses is stripped. */
  function PlainIp(text: string): string {
    var t := Trim(text);
    if |t| > |MAPPED| && Lower(t[..|MAPPED|]) == MAPPED && DigitGroups(t[|MAPPED|..], 4) then t[|MAPPED|..] else t
  }

  predicate IsPlain(text: string) {
    PlainIp(text) == text
  }

  lemma {:induction false} DigitGroupsHoldNoColon(s: string, n: nat)
    requires DigitGroups(s, n)
    ensures s != "" && forall i :: 0 <= i < |s| ==> IsDigit(s[i]) || s[i] == '.'
    decreases n
  {
    var d := LeadingDigits(s);
    assert forall i :: 0 <= i < d ==> s[i] == s[..d][i];
    if n > 1 {
      DigitGroupsHoldNoColon(s[d + 1..], n - 1);
      assert forall i :: d < i < |s| ==> s[i] == s[d + 1..][i - d - 1];
    }
  }

  lemma {:induction false} DroppedEndsInNoSpace(s: string)
    ensures var t := Envelopes.DropTrailingSpaces(s); t != "" ==> !Envelopes.IsSpace(t[|t| - 1])
  {
    if s != "" && Envelopes.IsSpace(s[|s| - 1]) {
      DroppedEndsInNoSpace(s[..|s| - 1]);
    }
  }

  /** A text that neither starts nor ends with white space is its own trimmed form. */
  lemma TrimmedStays(s: string)
    requires s != "" ==> !Envelopes.IsSpace(s[0]) && !Envelopes.IsSpace(s[|s| - 1])
    ensures Trim(s) == s
  {
  }

  lemma TrimIsStable(s: string)
    ensures Trim(Trim(s)) == Trim(s)
  {
    DroppedEndsInNoSpace(Envelopes.SkipSpaces(s));
    assert Trim(s) != "" ==> Trim(s)[0] == Envelopes.SkipSpaces(s)[0];
    TrimmedStays(Trim(s));
  }

  /** The plain form of an address is plain. */
  lemma PlainIsPlain(text: string)
    ensures IsPlain(PlainIp(text))
  {
    var t, p := Trim(text), PlainIp(text);
    if DigitGroups(p, 4) {
      DottedIsPlain(p);
    } else {
      assert p == t;
      hide DigitGroups, Trim;
      TrimIsStable(text);
    }
  }

  lemma DottedIsPlain(p: string)
    requires DigitGroups(p, 4)
    ensures IsPlain(p)
  {
    DottedEnds(p);
    hide DigitGroups, Trim;
    TrimmedStays(p);
    assert |p| > |MAPPED| ==> Lower(p[..|MAPPED|])[0] == LowerChar(p[0]) != ':';
  }

  lemma DottedEnds(dotted: string)
    requires DigitGroups(dotted, 4)
    ensures dotted != "" && LowerChar(dotted[0]) != ':' && !Envelopes.IsSpace(dotted[0]) && !Envelopes.IsSpace(dotted[|dotted| - 1])
    ensures !Envelopes.IsSpace(':')
  {
    DigitGroupsHoldNoColon(dotted, 4);
  }

  /** Behind the prefix a dotted address is not plain; its plain form is the dotted address. */
  lemma MappedIsNotPlain(dotted: string)
    requires DigitGroups(dotted, 4)
    ensures PlainIp(MAPPED + dotted) == dotted && !IsPlain(MAPPED + dotted)
  {
    DottedEnds(dotted);
    hide DigitGroups, Trim, Envelopes.IsSpace;
    var t := MAPPED + dotted;
    assert t[0] == ':' && t[|t| - 1] == dotted[|dotted| - 1];
    TrimmedStays(t);
    assert t[..|MAPPED|] == MAPPED && t[|MAPPED|..] == dotted;
    assert Lower(MAPPED) == MAPPED;
  }
}
