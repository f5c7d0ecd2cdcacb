/** Messages of a folder as the threading code sees them, and the links it draws between them. */
module Envelopes {
  import opened Text

  const DAY_MS := 24 * 60 * 60 * 1000
  const SUBJECT_FALLBACK_GAP_MS := 14 * DAY_MS

  datatype Address = Address(name: string, address: string)

  /** Dates are milliseconds since the epoch; `references` holds the ids found in the References header. */
  datatype Envelope = Envelope(
    uid: nat,
    messageId: string,
    inReplyTo: string,
    references: seq<string>,
    subject: string,
    date: int,
    from: Option<Address>,
    to: seq<Address>,
    flags: set<string>,
    hasAttachments: bool,
    snippet: string)

  /** What every envelope built from a fetched message satisfies: it has an id, and parsed references are never empty. */
  predicate WellFormed(e: Envelope) {
    && e.messageId != ""
    && forall i :: 0 <= i < |e.references| ==> e.references[i] != ""
  }

  predicate AllWellFormed(envs: seq<Envelope>) {
    forall i :: 0 <= i < |envs| ==> WellFormed(envs[i])
  }

  ghost predicate DistinctUids(envs: seq<Envelope>) {
    forall i, j :: 0 <= i < j < |envs| ==> envs[i].uid != envs[j].uid
  }

  ghost function Elements(envs: seq<Envelope>): set<Envelope> {
    set e | e in envs
  }

  // ---- subjects ---------------------------------------------------------------------

  /** The characters a JavaScript regular expression's \s matches. */
  predicate IsSpace(c: char) {
    || '\t' <= c <= '\r' || c == ' ' || c == '\U{00A0}' || c == '\U{1680}'
    || '\U{2000}' <= c <= '\U{200A}' || c == '\U{2028}' || c == '\U{2029}'
    || c == '\U{202F}' || c == '\U{205F}' || c == '\U{3000}' || c == '\U{FEFF}'
  }

  function SkipSpaces(s: string): (r: string)
    ensures |r| <= |s|
    ensures r != "" ==> !IsSpace(r[0])
  {
    if s != "" && IsSpace(s[0]) then SkipSpaces(s[1..]) else s
  }

  function DropTrailingSpaces(s: string): (r: string)
    ensures r <= s
  {
    if s != "" && IsSpace(s[|s| - 1]) then DropTrailingSpaces(s[..|s| - 1]) else s
  }

  /** Replaces every run of white space by one blank. */
  function Collapse(s: string): (r: string)
    ensures forall i :: 0 <= i < |r| && IsSpace(r[i]) ==> r[i] == ' '
    decreases |s|
  {
    if s == "" then ""
    else if IsSpace(s[0]) then " " + Collapse(SkipSpaces(s[1..]))
    else [s[0]] + Collapse(s[1..])
  }

  const REPLY_WORDS := ["re", "fwd", "fw", "aw", "wg", "sv", "vs"]

  predicate StartsWithWord(s: string, word: string) {
    |word| <= |s| && Lower(s[..|word|]) == word
  }

  /** What follows one "word :" marker at the start of `s`, for the given reply word. */
  function AfterMarker(s: string, word: string): (r: Option<string>)
    ensures r.Some? ==> |r.value| < |s|
  {
    if !StartsWithWord(s, word) then None else
    var rest := SkipSpaces(s[|word|..]);
    if rest != "" && rest[0] == ':' then Some(SkipSpaces(rest[1..])) else None
  }

  function AfterAnyMarker(s: string, k: nat := 0): (r: Option<string>)
    requires k <= |REPLY_WORDS|
    ensures r.Some? ==> |r.value| < |s|
    decreases |REPLY_WORDS| - k
  {
    if k == |REPLY_WORDS| then None
    else if AfterMarker(s, REPLY_WORDS[k]).Some? then AfterMarker(s, REPLY_WORDS[k])
    else AfterAnyMarker(s, k + 1)
  }

  function StripMarkers(s: string): string
    decreases |s|
  {
    match AfterAnyMarker(s)
    case None => s
    case Some(rest) => StripMarkers(rest)
  }

  function NormalizeSubject(s: string): (r: string) {
    Lower(DropTrailingSpaces(SkipSpaces(Collapse(StripMarkers(SkipSpaces(s))))))
  }

  lemma SkipSpacesIsSuffix(s: string)
    ensures exists k :: 0 <= k <= |s| && SkipSpaces(s) == s[k..]
  {
    if s != "" && IsSpace(s[0]) {
      SkipSpacesIsSuffix(s[1..]);
      var k :| 0 <= k <= |s[1..]| && SkipSpaces(s[1..]) == s[1..][k..];
      assert s[1..][k..] == s[k + 1..];
    } else {
      assert s == s[0..];
    }
  }

  /** A normalized subject is one line, so the newline in a subject key separates subject from sender. */
  lemma NormalizedHasNoNewline(s: string)
    ensures '\n' !in NormalizeSubject(s)
  {
    var c := Collapse(StripMarkers(SkipSpaces(s)));
    assert forall i :: 0 <= i < |c| ==> c[i] != '\n' by {
      assert IsSpace('\n');
    }
    SkipSpacesIsSuffix(c);
    var d := DropTrailingSpaces(SkipSpaces(c));
    assert forall i :: 0 <= i < |d| ==> d[i] != '\n';
    forall i | 0 <= i < |d|
      ensures Lower(d)[i] != '\n'
    {
      assert Lower(d)[i] == LowerChar(d[i]);
    }
  }

  /** Replying to a message does not change what its subject is compared as. */
  lemma ReplyKeepsNormalizedSubject(s: string)
    ensures NormalizeSubject("Re: " + s) == NormalizeSubject(s)
  {
    var t := "Re: " + s;
    assert SkipSpaces(t) == t;
    assert t[..2] == "Re";
    assert Lower(t[..2]) == "re";
    assert StartsWithWord(t, "re");
    var rest := t[2..];
    assert rest == ": " + s;
    assert SkipSpaces(rest) == rest;
    assert rest[1..] == " " + s;
    assert (" " + s)[1..] == s;
    assert SkipSpaces(rest[1..]) == SkipSpaces(s);
    assert AfterMarker(t, "re") == Some(SkipSpaces(s));
    assert REPLY_WORDS[0] == "re";
    assert AfterAnyMarker(t) == Some(SkipSpaces(s));
    assert StripMarkers(t) == StripMarkers(SkipSpaces(s));
  }

  predicate HasLinks(e: Envelope) {
    |e.references| > 0 || e.inReplyTo != ""
  }

  /** What the subject fallback compares; none when the message names other messages or has no subject. */
  function SubjectKey(e: Envelope): (key: Option<string>) {
    var s := NormalizeSubject(e.subject);
    if HasLinks(e) || s == "" then None
    else Some(s + "\n" + (if e.from.Some? then Lower(e.from.value.address) else ""))
  }

  lemma SameKeySameSubject(e: Envelope, f: Envelope)
    requires SubjectKey(e).Some? && SubjectKey(e) == SubjectKey(f)
    ensures NormalizeSubject(e.subject) == NormalizeSubject(f.subject)
  {
    var s, t := NormalizeSubject(e.subject), NormalizeSubject(f.subject);
    NormalizedHasNoNewline(e.subject);
    NormalizedHasNoNewline(f.subject);
    var key := SubjectKey(e).value;
    assert key[|s|] == '\n' && key[|t|] == '\n';
    assert |s| == |t|;
    assert s == key[..|s|] && t == key[..|t|];
  }

  // ---- links ------------------------------------------------------------------------

  /** The ids a message names besides its own. */
  function NamedIds(e: Envelope): (ids: seq<string>) {
    NonEmpty(e.references + [e.inReplyTo])
  }

  function NonEmpty(ids: seq<string>): (r: seq<string>)
    ensures forall x :: x in r <==> x in ids && x != ""
  {
    if ids == [] then []
    else (if ids[0] == "" then [] else [ids[0]]) + NonEmpty(ids[1..])
  }

  /** All the subject fallback looks at in a message. */
  datatype Tag = Tag(id: string, key: Option<string>, date: int)

  function TagOf(e: Envelope): Tag {
    Tag(e.messageId, SubjectKey(e), e.date)
  }

  /** The same subject and sender, at most 14 days apart. */
  predicate Close(t: Tag, u: Tag) {
    && t.key.Some? && t.key == u.key
    && -SUBJECT_FALLBACK_GAP_MS <= t.date - u.date <= SUBJECT_FALLBACK_GAP_MS
  }

  /** Message-ID, In-Reply-To and References links. */
  ghost function IdLinks(envs: set<Envelope>): set<(string, string)> {
    set e, id | e in envs && id in NamedIds(e) :: (e.messageId, id)
  }

  /** Links between any two messages of one subject and sender at most 14 days apart. */
  ghost function SubjectLinks(envs: set<Envelope>): set<(string, string)> {
    set e, f | e in envs && f in envs && Close(TagOf(e), TagOf(f)) :: (e.messageId, f.messageId)
  }

  ghost function Links(envs: set<Envelope>): set<(string, string)> {
    IdLinks(envs) + SubjectLinks(envs)
  }

  lemma LinksMonotone(envs: set<Envelope>, more: set<Envelope>)
    requires envs <= more
    ensures Links(envs) <= Links(more)
  {
  }
}
