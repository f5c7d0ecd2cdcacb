/** A log truncated in place: what the poll that notices it hands over, and what whole runs go on to hand over. */
module LogTruncation {
  import opened Text
  import opened LogTail
  import opened LogTailRuns

  // ---- one poll -----------------------------------------------------------------------------

  /** A file shorter than the position is read from its start, with nothing carried over from what it was before. */
  lemma TruncatedFileIsReadWhole(t: Tailer, saved: Option<Saved>, disk: map<nat, seq<Byte>>, path: nat, now: int)
    requires Sound(t) && t.open && t.ino == path && path in disk && |disk[path]| < t.pos
    ensures var o := Tick(t, saved, disk, Some(path), now);
      && o.lines == Lines(disk[path]) && o.t.open && InStep(path, disk[path], o.t)
      && Done(o.t) == |disk[path]| - |Tail(disk[path])|
  {
    hide Lines, Tail, NewlineAt, InStep;
    var c, again := disk[path], t.(pos := 0, partial := []);
    assert again.partial + Unread(again, c) == c[0..] == c;
    NothingCarried();
    DrainedInStep(path, c, again, 0);
    DrainedIsSound(again, c);
    SavingKeepsPlace(path, c, Drained(again, c), saved, now);
  }

  lemma NothingCarried()
    ensures NewlineAt([]).None?
  {
  }

  /** A file at least as long as the position is read on from there, whatever it was before. */
  lemma LongerFileIsReadOn(t: Tailer, saved: Option<Saved>, disk: map<nat, seq<Byte>>, path: nat, now: int)
    requires Sound(t) && t.open && t.ino == path && path in disk && |disk[path]| >= t.pos
    ensures Tick(t, saved, disk, Some(path), now).lines == Lines(t.partial + disk[path][t.pos..])
  {
    hide Lines, Tail, NewlineAt;
    assert Unread(t, disk[path]) == disk[path][t.pos..];
  }

  /**
   * A restarted tailer resumes at the remembered offset of this very file, unless the file has become shorter: then it is
   * read from its start.
   */
  lemma RestartReadsFrom(ino: nat, at: nat, disk: map<nat, seq<Byte>>, now: int)
    requires ino in disk
    ensures Tick(STARTED, Some(Saved(ino, at)), disk, Some(ino), now).lines
         == Lines(if at <= |disk[ino]| then disk[ino][at..] else disk[ino])
  {
    hide Lines, Tail;
    var from := if at <= |disk[ino]| then at else 0;
    var reader := Opened(STARTED, ino, from);
    assert reader.partial + Unread(reader, disk[ino]) == disk[ino][from..];
    assert disk[ino][0..] == disk[ino];
  }

  // ---- runs in which the file may be truncated -------------------------------------------------

  /** An event of a run over a growing file, or the file's bytes replaced by others. */
  datatype Change = Same(e: Event) | Truncate(bytes: seq<Byte>)

  ghost function Next(ino: nat, s: System, change: Change): System
    requires Ready(ino, s)
  {
    match change
    case Same(e) => Step(ino, s, e)
    case Truncate(bytes) => s.(content := bytes)
  }

  ghost predicate IsHistory(ino: nat, changes: seq<Change>, states: seq<System>) {
    && |states| == |changes| + 1 && states[0] == Begin(states[0].content)
    && forall i :: 0 <= i < |changes| ==> Ready(ino, states[i]) && states[i + 1] == Next(ino, states[i], changes[i])
  }

  /** What the running tailer believes saved is what is saved. */
  ghost predicate InSync(ino: nat, s: System) {
    s.t.Some? && s.t.value.savedPos >= 0 ==> s.saved == Some(Saved(ino, s.t.value.savedPos))
  }

  lemma TickKeepsInSync(ino: nat, s: System, now: int)
    requires Ready(ino, s) && InSync(ino, s) && s.t.Some?
    ensures InSync(ino, Step(ino, s, Poll(now)))
  {
    hide Lines, Tail;
  }

  lemma NextKeepsInSync(ino: nat, s: System, change: Change)
    requires Ready(ino, s) && InSync(ino, s)
    ensures InSync(ino, Next(ino, s, change))
  {
    hide Tick, Sound;
    if change.Same? && change.e.Poll? && s.t.Some? {
      TickKeepsInSync(ino, s, change.e.now);
    }
  }

  lemma {:induction false} HistoryIsInSync(ino: nat, changes: seq<Change>, states: seq<System>, n: nat)
    requires IsHistory(ino, changes, states) && n < |states|
    ensures InSync(ino, states[n])
  {
    if n > 0 {
      HistoryIsInSync(ino, changes, states, n - 1);
      hide InSync, Next;
      NextKeepsInSync(ino, states[n - 1], changes[n - 1]);
    }
  }

  /** This poll sees the file shorter than the tailer's position. */
  ghost predicate Notices(s: System, change: Change) {
    change.Same? && change.e.Poll? && s.t.Some? && s.t.value.open && |s.content| < s.t.value.pos
  }

  /** After this the record is up to date: a poll five seconds or more after the last save, or an orderly stop. */
  predicate Refreshes(s: System, change: Change) {
    && change.Same? && s.t.Some?
    && ((change.e.Poll? && change.e.now - s.t.value.lastSave >= SAVE_MS) || change.e.StopBetween?)
  }

  /** The system as if it had begun with the new content, nothing handed over, and no record until it is up to date. */
  ghost function Afresh(s: System, base: nat, current: bool): System {
    System(s.content, s.t, if current then s.saved else None, s.delivered[if base <= |s.delivered| then base else 0..])
  }

  ghost predicate Fresh(ino: nat, s: System, base: nat, current: bool, high: nat) {
    && base <= |s.delivered| && InSync(ino, s) && Covered(ino, Afresh(s, base, current), high)
    && (!current ==> s.t.Some? && s.t.value.open)
  }

  lemma FreshIsReady(ino: nat, s: System, base: nat, current: bool, high: nat)
    requires Fresh(ino, s, base, current, high)
    ensures Ready(ino, s)
  {
    hide Lines, Subsequence;
  }

  /** With an up-to-date record everything goes as if the run had begun with the new content. */
  lemma StepsAlike(ino: nat, s: System, e: Event, base: nat)
    requires Ready(ino, s) && base <= |s.delivered|
    ensures base <= |Step(ino, s, e).delivered|
    ensures Afresh(Step(ino, s, e), base, true) == Step(ino, Afresh(s, base, true), e)
  {
    hide Tick, Sound;
    var more := Step(ino, s, e).delivered;
    assert more[..|s.delivered|] == s.delivered;
    assert more[base..] == s.delivered[base..] + more[|s.delivered|..];
    assert Step(ino, Afresh(s, base, true), e).delivered == s.delivered[base..] + more[|s.delivered|..];
  }

  /** An open tailer polls alike whatever the record; what it saves then is the place it has reached. */
  lemma PollsAlike(ino: nat, s: System, now: int)
    requires Ready(ino, s) && s.t.Some? && s.t.value.open
    ensures var o, p := PollOutcome(ino, s, now), PollOutcome(ino, s.(saved := None), now);
      && o.t == p.t && o.lines == p.lines && (p.saved.Some? ==> o.saved == p.saved) && (p.saved.None? ==> o.saved == s.saved)
      && (now - s.t.value.lastSave >= SAVE_MS && p.saved.None? ==> Done(o.t) == o.t.savedPos)
  {
    hide Lines, Tail;
  }

  lemma CoveredWithoutRecord(ino: nat, s: System, high: nat)
    requires Covered(ino, s, high)
    ensures Covered(ino, s.(saved := None), high)
  {
    hide Lines, Subsequence, InStep;
  }

  /** A record of the place reached is as good as none. */
  lemma CoveredWithRecord(ino: nat, s: System, high: nat)
    requires Covered(ino, s, high) && s.t.Some? && s.t.value.open
    ensures Done(s.t.value) >= 0 && Covered(ino, s.(saved := Some(Saved(ino, Done(s.t.value)))), high)
  {
    hide Lines, Subsequence;
  }

  lemma PolledAlike(ino: nat, s: System, now: int, base: nat)
    requires Ready(ino, s) && s.t.Some? && s.t.value.open && base <= |s.delivered|
    ensures var after, polled := Step(ino, s, Poll(now)), Step(ino, Afresh(s, base, false), Poll(now));
      && after.content == s.content && base <= |after.delivered| && after.t.Some? && after.t.value.open
      && polled == System(s.content, after.t, polled.saved, after.delivered[base..])
      && (polled.saved.Some? ==> after.saved == polled.saved)
      && (polled.saved.None? && now - s.t.value.lastSave >= SAVE_MS ==> Done(after.t.value) == after.t.value.savedPos)
  {
    hide Tick, Sound;
    PollsAlike(ino, s, now);
    OpenAfterPoll(ino, s, now);
    var after, lines := Step(ino, s, Poll(now)), PollOutcome(ino, s, now).lines;
    assert PollOutcome(ino, Afresh(s, base, false), now) == PollOutcome(ino, s.(saved := None), now);
    assert after.delivered[base..] == s.delivered[base..] + lines;
  }

  lemma PollStaysFresh(ino: nat, s: System, now: int, base: nat, high: nat) returns (next: nat)
    requires Fresh(ino, s, base, false, high)
    ensures Ready(ino, s)
    ensures Fresh(ino, Step(ino, s, Poll(now)), base, now - s.t.value.lastSave >= SAVE_MS, next)
    ensures next == |s.content| - |Tail(s.content)|
  {
    FreshIsReady(ino, s, base, false, high);
    TickKeepsInSync(ino, s, now);
    PolledAlike(ino, s, now, base);
    var after, polled := Step(ino, s, Poll(now)), Step(ino, Afresh(s, base, false), Poll(now));
    hide Lines, Tail, Subsequence, Covered, Sound, Step;
    next := PollKeepsCovered(ino, Afresh(s, base, false), now, high);
    RecordOrNot(ino, polled, after, base, now - s.t.value.lastSave >= SAVE_MS, next);
  }

  /** A poll that saved, or had the right record already, leaves an up-to-date record; any other may as well have none. */
  lemma RecordOrNot(ino: nat, polled: System, after: System, base: nat, current: bool, next: nat)
    requires Covered(ino, polled, next) && InSync(ino, after)
    requires base <= |after.delivered| && after.t.Some? && after.t.value.open
    requires polled == System(after.content, after.t, polled.saved, after.delivered[base..])
    requires polled.saved.Some? ==> after.saved == polled.saved
    requires polled.saved.None? && current ==> Done(after.t.value) == after.t.value.savedPos
    ensures Fresh(ino, after, base, current, next)
  {
    CoveredWithoutRecord(ino, polled, next);
    CoveredWithRecord(ino, polled, next);
    hide Covered, Sound;
    if current && polled.saved.None? {
      assert Afresh(after, base, true) == polled.(saved := Some(Saved(ino, Done(after.t.value))));
    } else if current {
      assert Afresh(after, base, true) == polled;
    } else {
      assert Afresh(after, base, false) == polled.(saved := None);
    }
  }

  lemma OpenAfterPoll(ino: nat, s: System, now: int)
    requires Ready(ino, s) && s.t.Some?
    ensures PollOutcome(ino, s, now).t.open
  {
    hide Lines, Tail;
  }

  /** Every event keeps the new content covered; only a crash needs an up-to-date record. */
  lemma StepStaysFresh(ino: nat, s: System, e: Event, base: nat, current: bool, high: nat) returns (next: nat)
    requires Fresh(ino, s, base, current, high) && (e.Crash? ==> current)
    ensures Ready(ino, s) && Fresh(ino, Step(ino, s, e), base, current || Refreshes(s, Same(e)), next)
    ensures e.Poll? && s.t.Some? ==> next == |s.content| - |Tail(s.content)|
  {
    FreshIsReady(ino, s, base, current, high);
    NextKeepsInSync(ino, s, Same(e));
    if current {
      StepsAlike(ino, s, e, base);
      hide Lines, Tail, Subsequence, Tick, Covered, Sound, Step;
      next := StepKeepsCovered(ino, Afresh(s, base, true), e, high);
    } else if e.Poll? {
      next := PollStaysFresh(ino, s, e.now, base, high);
    } else {
      next := high;
      QuietStepStaysFresh(ino, s, e, base, high);
    }
  }

  lemma QuietStepStaysFresh(ino: nat, s: System, e: Event, base: nat, high: nat)
    requires Fresh(ino, s, base, false, high) && !e.Crash? && !e.Poll? && Ready(ino, s)
    ensures Fresh(ino, Step(ino, s, e), base, Refreshes(s, Same(e)), high)
  {
    hide Lines, Tail, Subsequence, Tick;
    match e
    case Append(bytes) =>
      AppendKeepsCovered(ino, Afresh(s, base, false), bytes, high);
    case StopBetween(now) =>
      CoveredWithRecord(ino, Afresh(s, base, false), high);
    case _ =>
  }

  /** The poll that notices a truncation covers the new content. */
  lemma NoticingIsFresh(ino: nat, s: System, now: int) returns (high: nat)
    requires Ready(ino, s) && InSync(ino, s) && Notices(s, Same(Poll(now)))
    ensures Fresh(ino, Step(ino, s, Poll(now)), |s.delivered|, now - s.t.value.lastSave >= SAVE_MS, high)
    ensures high == |s.content| - |Tail(s.content)|
  {
    var t, after := s.t.value, Step(ino, s, Poll(now));
    high := |s.content| - |Tail(s.content)|;
    TruncatedFileIsReadWhole(t, s.saved, map[ino := s.content], ino, now);
    TickKeepsInSync(ino, s, now);
    PollsAlike(ino, s, now);
    TailStartsALine(s.content);
    LinesEndWhereTailStarts(s.content);
    TailIsSuffix(s.content);
    hide Lines, Tail, Subsequence, Tick, InStep, Sound;
    assert after.delivered[|s.delivered|..] == Lines(s.content);
    SubsequenceOfItself(Lines(s.content));
    var polled := System(s.content, after.t, None, after.delivered[|s.delivered|..]);
    RecordOrNot(ino, polled, after, |s.delivered|, now - t.lastSave >= SAVE_MS, high);
  }

  lemma {:induction false} SubsequenceOfItself<T>(a: seq<T>)
    ensures Subsequence(a, a)
  {
    if a != [] {
      SubsequenceOfItself(a[..|a| - 1]);
    }
  }

  /** Between the poll `d` that noticed a truncation and `n` the file only grows and crashes come after a fresh record. */
  ghost predicate OneContent(changes: seq<Change>, states: seq<System>, d: nat, n: nat) {
    && d < n <= |changes| < |states|
    && (forall i :: d <= i < n ==> changes[i].Same?)
    && (forall i :: d < i < n && changes[i].Same? && changes[i].e.Crash? ==>
          exists j :: d <= j < i && Refreshes(states[j], changes[j]))
  }

  lemma {:induction false} HistoryStaysFresh(ino: nat, changes: seq<Change>, states: seq<System>, d: nat, n: nat)
    returns (current: bool, high: nat)
    requires IsHistory(ino, changes, states) && OneContent(changes, states, d, n) && Notices(states[d], changes[d])
    ensures Fresh(ino, states[n], |states[d].delivered|, current, high)
    ensures (exists j :: d <= j < n && Refreshes(states[j], changes[j])) ==> current
    ensures changes[n - 1].e.Poll? && states[n - 1].t.Some? ==> high == |states[n].content| - |Tail(states[n].content)|
    decreases n
  {
    hide Fresh, Ready, Tail, Refreshes, Step;
    var base := |states[d].delivered|;
    var e := changes[n - 1].e;
    assert states[n] == Next(ino, states[n - 1], Same(e));
    if n == d + 1 {
      HistoryIsInSync(ino, changes, states, d);
      high := NoticingIsFresh(ino, states[d], e.now);
      current := e.now - states[d].t.value.lastSave >= SAVE_MS;
      NoticingRefreshes(states[d], e);
    } else {
      var was, before := HistoryStaysFresh(ino, changes, states, d, n - 1);
      high := StepStaysFresh(ino, states[n - 1], e, base, was, before);
      current := was || Refreshes(states[n - 1], changes[n - 1]);
    }
    if e.Poll? {
      PollKeepsContent(ino, states[n - 1], e);
    }
  }

  lemma NoticingRefreshes(s: System, e: Event)
    requires Notices(s, Same(e))
    ensures Refreshes(s, Same(e)) <==> e.now - s.t.value.lastSave >= SAVE_MS
  {
  }

  lemma PollKeepsContent(ino: nat, s: System, e: Event)
    requires Ready(ino, s) && e.Poll?
    ensures Step(ino, s, e).content == s.content
  {
  }

  /**
   * Nothing of the new content is skipped: after any later poll every complete line of it has been handed over, in order,
   * since the truncation was noticed; and once the record is up to date, every line before it has been.
   */
  lemma NothingNewIsSkipped(ino: nat, changes: seq<Change>, states: seq<System>, d: nat, n: nat)
    requires IsHistory(ino, changes, states) && OneContent(changes, states, d, n) && Notices(states[d], changes[d])
    ensures var s := states[n];
      var since := s.delivered[if |states[d].delivered| <= |s.delivered| then |states[d].delivered| else 0..];
      && (changes[n - 1].e.Poll? && states[n - 1].t.Some? ==> Subsequence(Lines(s.content), since))
      && ((exists j :: d <= j < n && Refreshes(states[j], changes[j])) && s.saved.Some? ==>
            Boundary(s.content, s.saved.value.pos) && Subsequence(Lines(s.content[..s.saved.value.pos]), since))
  {
    assert d < n < |states|;
    hide *;
    var current, high := HistoryStaysFresh(ino, changes, states, d, n);
    FreshTells(ino, states[n], |states[d].delivered|, current, high);
  }

  lemma FreshTells(ino: nat, s: System, base: nat, current: bool, high: nat)
    requires Fresh(ino, s, base, current, high)
    ensures base <= |s.delivered|
    ensures high == |s.content| - |Tail(s.content)| ==> Subsequence(Lines(s.content), s.delivered[base..])
    ensures current && s.saved.Some? ==>
      Boundary(s.content, s.saved.value.pos) && Subsequence(Lines(s.content[..s.saved.value.pos]), s.delivered[base..])
  {
    hide Lines, Tail, Subsequence, InStep;
    LinesEndWhereTailStarts(s.content);
    if current && s.saved.Some? {
      var at := s.saved.value.pos;
      assert s.content[..high][..at] == s.content[..at];
      SplitAtBoundary(s.content[..high], at);
      PrefixOfSubsequence(Lines(s.content[..at]), Lines(s.content[..high][at..]), s.delivered[base..]);
    }
  }

  // ---- the record between truncation and refresh ------------------------------------------------

  /** The poll that notices a truncation leaves the right record unless it comes within five seconds of the last save. */
  lemma NoticingRecordsIff(ino: nat, s: System, now: int)
    requires Ready(ino, s) && InSync(ino, s) && Notices(s, Same(Poll(now)))
    ensures var after, end := Step(ino, s, Poll(now)), |s.content| - |Tail(s.content)|;
      after.saved == Some(Saved(ino, end))
      <==> now - s.t.value.lastSave >= SAVE_MS || s.saved == Some(Saved(ino, end))
  {
    hide Lines, Tail, NewlineAt;
    TruncatedFileIsReadWhole(s.t.value, s.saved, map[ino := s.content], ino, now);
  }

  lemma OneLetterLine(letter: Byte, rest: seq<Byte>)
    requires letter != NEWLINE && letter != 13
    ensures Lines([letter, NEWLINE] + rest) == [[letter]] + Lines(rest)
    ensures Tail([letter, NEWLINE] + rest) == Tail(rest)
  {
    var b := [letter, NEWLINE] + rest;
    assert b[1..][0] == NEWLINE && NewlineAt(b[1..]) == Some(0) && NewlineAt(b) == Some(1);
    assert b[..1] == [letter] && b[2..] == rest;
    LinesStep(b);
  }

  /**
   * A crash before that leaves the old file's offset as the record. In this case the new content has grown to it when the
   * process comes back, and the line "c" before it is never handed over.
   */
  lemma StaleRecordSkips()
    ensures var t, record := Tailer(true, 1, 4, [], 4, 1_000), Some(Saved(1, 4));
      var noticed := Tick(t, record, map[1 := [98, 10]], Some(1), 2_000);
      && noticed.lines == [[98]] && noticed.saved == record
      && Tick(STARTED, noticed.saved, map[1 := [98, 10, 99, 10]], Some(1), 9_000).lines == []
      && Lines([98, 10, 99, 10]) == [[98], [99]]
  {
    hide *;
    TwoLines();
    StaleIsKept();
    RestartReadsFrom(1, 4, map[1 := [98, 10, 99, 10]], 9_000);
    assert [98, 10, 99, 10][4..] == [];
    NothingToRead();
  }

  lemma TwoLines()
    ensures Lines([98, 10]) == [[98]] && Lines([98, 10, 99, 10]) == [[98], [99]] && Tail([98, 10]) == []
  {
    var b: seq<Byte>, c: seq<Byte> := [98, 10], [99, 10];
    assert [98, NEWLINE] + [] == b && [99, NEWLINE] + [] == c && [98, NEWLINE] + c == [98, 10, 99, 10];
    NothingToRead();
    OneLetterLine(98, []);
    OneLetterLine(99, []);
    OneLetterLine(98, c);
    assert Tail([]) == [];
  }

  lemma StaleIsKept()
    ensures var t, record := Tailer(true, 1, 4, [], 4, 1_000), Some(Saved(1, 4));
      var noticed := Tick(t, record, map[1 := [98, 10]], Some(1), 2_000);
      noticed.lines == Lines([98, 10]) && noticed.saved == record
  {
    var t, record := Tailer(true, 1, 4, [], 4, 1_000), Some(Saved(1, 4));
    NothingCarried();
    hide Lines, Tail, NewlineAt;
    TruncatedFileIsReadWhole(t, record, map[1 := [98, 10]], 1, 2_000);
  }
}
