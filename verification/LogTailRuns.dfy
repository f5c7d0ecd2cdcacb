/** Whole runs of the tailer over one growing file, with crashes and restarts at any point. */
module LogTailRuns {
  import opened Text
  import opened LogTail

  // ---- subsequences -------------------------------------------------------------------

  /** `a` can be had from `b` by leaving elements out. */
  ghost predicate Subsequence<T>(a: seq<T>, b: seq<T>) {
    a == [] || (b != [] &&
      ((a[|a| - 1] == b[|b| - 1] && Subsequence(a[..|a| - 1], b[..|b| - 1])) || Subsequence(a, b[..|b| - 1])))
  }

  lemma {:induction false} SubsequenceOfMore<T>(a: seq<T>, b: seq<T>, c: seq<T>)
    requires Subsequence(a, b)
    ensures Subsequence(a, b + c)
  {
    if c == [] {
      assert b + c == b;
    } else {
      SubsequenceOfMore(a, b, c[..|c| - 1]);
      assert (b + c)[..|b + c| - 1] == b + c[..|c| - 1];
    }
  }

  lemma {:induction false} SubsequenceBothMore<T>(a: seq<T>, b: seq<T>, c: seq<T>)
    requires Subsequence(a, b)
    ensures Subsequence(a + c, b + c)
  {
    if c == [] {
      assert a + c == a && b + c == b;
    } else {
      SubsequenceBothMore(a, b, c[..|c| - 1]);
      assert (b + c)[..|b + c| - 1] == b + c[..|c| - 1];
      assert (a + c)[..|a + c| - 1] == a + c[..|c| - 1];
    }
  }

  lemma {:induction false} PrefixOfSubsequence<T>(a: seq<T>, c: seq<T>, b: seq<T>)
    requires Subsequence(a + c, b)
    ensures Subsequence(a, b)
    decreases |b|, |c|
  {
    if c == [] {
      assert a + c == a;
    } else {
      var ac, shorter := a + c, b[..|b| - 1];
      if Subsequence(ac, shorter) {
        PrefixOfSubsequence(a, c, shorter);
      } else {
        assert ac[..|ac| - 1] == a + c[..|c| - 1];
        PrefixOfSubsequence(a, c[..|c| - 1], shorter);
      }
    }
  }

  // ---- the system -----------------------------------------------------------------------

  /** The file's bytes, the running tailer if any, the remembered offset, and every line handed over so far. */
  datatype System = System(content: seq<Byte>, t: Option<Tailer>, saved: Option<Saved>, delivered: seq<seq<Byte>>)

  /**
   * The log grows; the process starts, polls (finding the file or not), stops in an orderly way between polls, or dies,
   * possibly within a poll after `handed` of its lines.
   */
  datatype Event = Append(bytes: seq<Byte>) | Start | Poll(now: int) | PollMissing(now: int) | StopBetween(now: int)
                 | Crash(now: int, handed: nat)

  ghost predicate Ready(ino: nat, s: System) {
    s.t.Some? ==> Sound(s.t.value) && (s.t.value.open ==> s.t.value.ino == ino)
  }

  function PollOutcome(ino: nat, s: System, now: int): Outcome
    requires s.t.Some? && Sound(s.t.value) && (s.t.value.open ==> s.t.value.ino == ino)
  {
    Tick(s.t.value, s.saved, map[ino := s.content], Some(ino), now)
  }

  function UpTo<T>(s: seq<T>, n: nat): seq<T> {
    if n < |s| then s[..n] else s
  }

  ghost function Step(ino: nat, s: System, e: Event): System
    requires Ready(ino, s)
  {
    match e
    case Append(bytes) => s.(content := s.content + bytes)
    case Start => if s.t.None? then s.(t := Some(STARTED)) else s
    case Poll(now) =>
      if s.t.None? then s else
      var o := PollOutcome(ino, s, now);
      s.(t := Some(o.t), saved := o.saved, delivered := s.delivered + o.lines)
    case PollMissing(_) => s
    case StopBetween(now) => if s.t.None? then s else s.(t := None, saved := Stop(s.t.value, s.saved, now))
    case Crash(now, handed) =>
      if s.t.None? then s else
      s.(t := None, delivered := s.delivered + UpTo(PollOutcome(ino, s, now).lines, handed))
  }

  // ---- what every step keeps --------------------------------------------------------------

  /** The running tailer has read the file up to its position and starts its partial line at a line start. */
  ghost predicate InStep(ino: nat, content: seq<Byte>, t: Tailer) {
    && Sound(t)
    && (t.open ==> t.ino == ino && t.pos <= |content| && Boundary(content, Done(t)) && t.partial == content[Done(t)..t.pos])
  }

  /** Every line before `high` was handed over, in order; the remembered offset is a line start not past `high`. */
  ghost predicate Covered(ino: nat, s: System, high: nat) {
    && Boundary(s.content, high)
    && Subsequence(Lines(s.content[..high]), s.delivered)
    && (s.saved.Some? ==> s.saved.value.ino == ino && s.saved.value.pos <= high && Boundary(s.content, s.saved.value.pos))
    && (s.t.Some? ==> InStep(ino, s.content, s.t.value) && (s.t.value.open ==> Done(s.t.value) <= high))
  }

  /** The offset from which the next poll reads. */
  function ReadsFrom(s: System): int {
    if s.t.Some? && s.t.value.open then Done(s.t.value) else if s.saved.Some? then s.saved.value.pos else 0
  }

  /** However the poll finds the tailer, what it has left to read is the file from that offset on. */
  lemma PreparedReadsFrom(ino: nat, s: System, high: nat)
    requires Covered(ino, s, high) && s.t.Some?
    ensures Ready(ino, s) && ReadsFrom(s) >= 0 && Boundary(s.content, ReadsFrom(s)) && ReadsFrom(s) <= high
    ensures var (ready, finished) := Prepared(s.t.value, s.saved, map[ino := s.content], ino);
      && finished == [] && ready.open && ready.ino == ino && Sound(ready) && ready.pos <= |s.content|
      && ready.savedPos == s.t.value.savedPos
      && ready.partial + Unread(ready, s.content) == s.content[ReadsFrom(s)..]
  {
    hide Subsequence, Lines;
    var c := s.content;
    var ready := Prepared(s.t.value, s.saved, map[ino := c], ino).0;
    var from: nat := ReadsFrom(s);
    assert ready.partial + c[ready.pos..] == c[from..];
  }

  /** Draining from a line start ends after the last newline, with the rest carried over. */
  lemma DrainedInStep(ino: nat, c: seq<Byte>, ready: Tailer, from: nat)
    requires ready.open && ready.ino == ino && Sound(ready) && ready.pos <= |c| && Boundary(c, from)
    requires ready.partial + Unread(ready, c) == c[from..]
    ensures InStep(ino, c, Drained(ready, c)) && Drained(ready, c).open
    ensures Done(Drained(ready, c)) == |c| - |Tail(c)|
  {
    hide Lines, Tail, NewlineAt;
    SplitAtBoundary(c, from);
    TailIsSuffix(c);
    TailStartsALine(c);
    DrainedIsSound(ready, c);
    var drained := Drained(ready, c);
    assert drained.pos == |c| && drained.partial == Tail(c);
    assert c[Done(drained)..drained.pos] == c[|c| - |Tail(c)|..];
  }

  /** A poll hands over exactly the lines from there to the end of the file, and ends after the last of them. */
  lemma PollReadsTheRest(ino: nat, s: System, high: nat, now: int)
    requires Covered(ino, s, high) && s.t.Some?
    ensures Ready(ino, s) && ReadsFrom(s) >= 0 && Boundary(s.content, ReadsFrom(s)) && ReadsFrom(s) <= high
    ensures var o := PollOutcome(ino, s, now);
      && o.lines == Lines(s.content[ReadsFrom(s)..])
      && o.t.open && InStep(ino, s.content, o.t) && Done(o.t) == |s.content| - |Tail(s.content)|
      && ((o.saved == s.saved && o.t.savedPos == s.t.value.savedPos)
          || (o.saved == Some(Saved(ino, Done(o.t))) && o.t.savedPos == Done(o.t)))
  {
    PreparedReadsFrom(ino, s, high);
    hide Lines, Tail, NewlineAt, Prepared, Subsequence, Drained, InStep, Boundary;
    var (ready, _) := Prepared(s.t.value, s.saved, map[ino := s.content], ino);
    DrainedInStep(ino, s.content, ready, ReadsFrom(s));
    DrainedKeeps(ready, s.content);
    SavingKeepsPlace(ino, s.content, Drained(ready, s.content), s.saved, now);
  }

  lemma DrainedKeeps(t: Tailer, c: seq<Byte>)
    ensures Drained(t, c).savedPos == t.savedPos && Drained(t, c).ino == t.ino
  {
  }

  lemma SavingKeepsPlace(ino: nat, c: seq<Byte>, t: Tailer, saved: Option<Saved>, now: int)
    requires InStep(ino, c, t) && Sound(t)
    ensures var (after, kept) := AfterSave(t, saved, false, now);
      && InStep(ino, c, after) && Done(after) == Done(t) && after.open == t.open
      && ((kept == saved && after.savedPos == t.savedPos)
          || (kept == Some(Saved(t.ino, Done(t))) && after.savedPos == Done(t)))
  {
  }

  lemma TailFits(c: seq<Byte>, from: nat)
    requires Boundary(c, from)
    ensures |Tail(c)| <= |c| - from
  {
    SplitAtBoundary(c, from);
  }

  lemma GrowingKeepsBoundary(c: seq<Byte>, more: seq<Byte>, at: nat)
    requires Boundary(c, at)
    ensures Boundary(c + more, at) && (c + more)[..at] == c[..at]
  {
  }

  lemma AppendKeepsCovered(ino: nat, s: System, bytes: seq<Byte>, high: nat)
    requires Covered(ino, s, high)
    ensures Covered(ino, s.(content := s.content + bytes), high)
  {
    hide Lines;
    GrowingKeepsBoundary(s.content, bytes, high);
    if s.saved.Some? {
      GrowingKeepsBoundary(s.content, bytes, s.saved.value.pos);
    }
    if s.t.Some? && s.t.value.open {
      var t := s.t.value;
      GrowingKeepsBoundary(s.content, bytes, Done(t));
      assert (s.content + bytes)[Done(t)..t.pos] == s.content[Done(t)..t.pos];
    }
  }

  /** Handing over all lines from a point not past `high` on covers everything up to the last newline. */
  lemma RereadCovers(c: seq<Byte>, from: nat, high: nat, delivered: seq<seq<Byte>>)
    requires Boundary(c, from) && Boundary(c, high) && from <= high
    requires Subsequence(Lines(c[..high]), delivered)
    ensures Subsequence(Lines(c), delivered + Lines(c[from..]))
  {
    hide Lines, Subsequence;
    assert c[..high][..from] == c[..from];
    SplitAtBoundary(c[..high], from);
    PrefixOfSubsequence(Lines(c[..from]), Lines(c[..high][from..]), delivered);
    SplitAtBoundary(c, from);
    SubsequenceBothMore(Lines(c[..from]), delivered, Lines(c[from..]));
  }

  lemma PollKeepsCovered(ino: nat, s: System, now: int, high: nat) returns (next: nat)
    requires Covered(ino, s, high) && s.t.Some?
    ensures Ready(ino, s) && Covered(ino, Step(ino, s, Poll(now)), next)
    ensures next == |s.content| - |Tail(s.content)|
  {
    hide Lines, Tail, Subsequence, Tick;
    PollReadsTheRest(ino, s, high, now);
    RereadCovers(s.content, ReadsFrom(s), high, s.delivered);
    TailStartsALine(s.content);
    LinesEndWhereTailStarts(s.content);
    next := |s.content| - |Tail(s.content)|;
    TailFits(s.content, high);
  }

  /** Every event keeps the coverage; it never shrinks. */
  lemma StepKeepsCovered(ino: nat, s: System, e: Event, high: nat) returns (next: nat)
    requires Covered(ino, s, high)
    ensures Ready(ino, s) && Covered(ino, Step(ino, s, e), next)
    ensures e.Poll? && s.t.Some? ==> next == |s.content| - |Tail(s.content)|
  {
    hide Lines, Tail, Subsequence, Tick;
    next := high;
    match e
    case Append(bytes) => AppendKeepsCovered(ino, s, bytes, high);
    case Start =>
    case Poll(now) => if s.t.Some? { next := PollKeepsCovered(ino, s, now, high); }
    case PollMissing(_) =>
    case StopBetween(_) =>
    case Crash(now, handed) =>
      if s.t.Some? {
        SubsequenceOfMore(Lines(s.content[..high]), s.delivered, UpTo(PollOutcome(ino, s, now).lines, handed));
      }
  }

  // ---- runs -------------------------------------------------------------------------------

  ghost function Begin(content: seq<Byte>): System {
    System(content, None, None, [])
  }

  /** `states` is a run: it begins with nothing remembered and each state follows from the one before. */
  ghost predicate IsRun(ino: nat, events: seq<Event>, states: seq<System>) {
    && |states| == |events| + 1 && states[0] == Begin(states[0].content)
    && forall i :: 0 <= i < |events| ==> Ready(ino, states[i]) && states[i + 1] == Step(ino, states[i], events[i])
  }

  lemma {:induction false} RunIsCovered(ino: nat, events: seq<Event>, states: seq<System>, n: nat) returns (high: nat)
    requires IsRun(ino, events, states) && n < |states|
    ensures Covered(ino, states[n], high)
    ensures n > 0 && events[n - 1].Poll? && states[n - 1].t.Some? ==>
      high == |states[n].content| - |Tail(states[n].content)|
  {
    hide Lines, Tail;
    if n == 0 {
      high := 0;
      assert Lines([]) == [] by { NothingToRead(); }
      assert states[0].content[..0] == [];
    } else {
      var before := RunIsCovered(ino, events, states, n - 1);
      assert states[n] == Step(ino, states[n - 1], events[n - 1]);
      high := StepKeepsCovered(ino, states[n - 1], events[n - 1], before);
    }
  }

  lemma NothingToRead()
    ensures Lines([]) == []
  {
  }

  /**
   * In every run, crashes included, the remembered offset is a line start and every complete line before it was handed
   * over; and after any finished poll every complete line of the file has been, in order. Nothing is ever skipped.
   */
  lemma NothingIsSkipped(ino: nat, events: seq<Event>, states: seq<System>, n: nat)
    requires IsRun(ino, events, states) && n < |states|
    ensures var s := states[n];
      s.saved.Some? ==> Boundary(s.content, s.saved.value.pos) && Subsequence(Lines(s.content[..s.saved.value.pos]), s.delivered)
    ensures n > 0 && events[n - 1].Poll? && states[n - 1].t.Some? ==>
      Subsequence(Lines(states[n].content), states[n].delivered)
  {
    hide Lines, Tail, Subsequence;
    var high := RunIsCovered(ino, events, states, n);
    var s := states[n];
    if s.saved.Some? {
      var at := s.saved.value.pos;
      assert s.content[..high][..at] == s.content[..at];
      SplitAtBoundary(s.content[..high], at);
      PrefixOfSubsequence(Lines(s.content[..at]), Lines(s.content[..high][at..]), s.delivered);
    }
    LinesEndWhereTailStarts(s.content);
  }

  // ---- nothing is made up ---------------------------------------------------------------------

  /** Every line handed over is a line of the file. */
  ghost predicate Genuine(s: System) {
    forall line :: line in s.delivered ==> line in Lines(s.content)
  }

  lemma GrowingKeepsLines(c: seq<Byte>, more: seq<Byte>, line: seq<Byte>)
    requires line in Lines(c)
    ensures line in Lines(c + more)
  {
    hide Lines, Tail;
    SplitAnywhere(c, more);
  }

  lemma RestIsGenuine(c: seq<Byte>, from: nat, line: seq<Byte>)
    requires Boundary(c, from) && line in Lines(c[from..])
    ensures line in Lines(c)
  {
    hide Lines, Tail;
    SplitAtBoundary(c, from);
  }

  lemma StepKeepsGenuine(ino: nat, s: System, e: Event, high: nat)
    requires Covered(ino, s, high) && Genuine(s)
    ensures Ready(ino, s) && Genuine(Step(ino, s, e))
  {
    hide Lines, Tail, Subsequence, Tick;
    match e
    case Append(bytes) =>
      forall line | line in s.delivered
        ensures line in Lines(s.content + bytes)
      {
        GrowingKeepsLines(s.content, bytes, line);
      }
    case Poll(now) =>
      if s.t.Some? {
        PollIsGenuine(ino, s, high, now);
      }
    case Crash(now, handed) =>
      if s.t.Some? {
        PollIsGenuine(ino, s, high, now);
        FewerLines(PollOutcome(ino, s, now).lines, handed);
      }
    case _ =>
  }

  lemma PollIsGenuine(ino: nat, s: System, high: nat, now: int)
    requires Covered(ino, s, high) && s.t.Some?
    ensures Ready(ino, s) && forall line :: line in PollOutcome(ino, s, now).lines ==> line in Lines(s.content)
  {
    hide Lines, Tail, Subsequence, Tick, InStep;
    PollReadsTheRest(ino, s, high, now);
    forall line | line in PollOutcome(ino, s, now).lines
      ensures line in Lines(s.content)
    {
      RestIsGenuine(s.content, ReadsFrom(s), line);
    }
  }

  lemma FewerLines<T(!new)>(s: seq<T>, n: nat)
    ensures forall x :: x in UpTo(s, n) ==> x in s
  {
  }

  /** In every run, crashes included, only lines of the file are handed over. */
  lemma {:induction false} OnlyLinesOfTheFile(ino: nat, events: seq<Event>, states: seq<System>, n: nat)
    requires IsRun(ino, events, states) && n < |states|
    ensures forall line :: line in states[n].delivered ==> line in Lines(states[n].content)
  {
    hide Lines, Tail, Subsequence, Covered;
    if n > 0 {
      OnlyLinesOfTheFile(ino, events, states, n - 1);
      var high := RunIsCovered(ino, events, states, n - 1);
      StepKeepsGenuine(ino, states[n - 1], events[n - 1], high);
      assert states[n] == Step(ino, states[n - 1], events[n - 1]);
    }
  }

  // ---- runs without a crash -----------------------------------------------------------------

  /** Exactly the lines before the point the next poll reads from were handed over, and a stop would remember that point. */
  ghost predicate Exact(ino: nat, s: System) {
    && ReadsFrom(s) >= 0 && Boundary(s.content, ReadsFrom(s))
    && s.delivered == Lines(s.content[..ReadsFrom(s)])
    && (s.t.Some? && s.t.value.savedPos >= 0 ==> s.saved == Some(Saved(ino, s.t.value.savedPos)))
  }

  lemma PollKeepsExact(ino: nat, s: System, now: int, high: nat)
    requires Covered(ino, s, high) && Exact(ino, s) && s.t.Some?
    ensures Ready(ino, s) && Exact(ino, Step(ino, s, Poll(now)))
    ensures Step(ino, s, Poll(now)).delivered == Lines(s.content)
  {
    hide Lines, Tail, Subsequence, Tick;
    PollReadsTheRest(ino, s, high, now);
    SplitAtBoundary(s.content, ReadsFrom(s));
    LinesEndWhereTailStarts(s.content);
    TailStartsALine(s.content);
  }

  lemma StepKeepsExact(ino: nat, s: System, e: Event, high: nat)
    requires Covered(ino, s, high) && Exact(ino, s) && !e.Crash?
    ensures Ready(ino, s) && Exact(ino, Step(ino, s, e))
    ensures e.Poll? && s.t.Some? ==> Step(ino, s, e).delivered == Lines(s.content)
  {
    hide Lines, Tail, Subsequence, Tick;
    match e
    case Append(bytes) => GrowingKeepsBoundary(s.content, bytes, ReadsFrom(s));
    case Start =>
    case Poll(now) => if s.t.Some? { PollKeepsExact(ino, s, now, high); }
    case PollMissing(_) =>
    case StopBetween(_) =>
  }

  lemma {:induction false} CleanRunIsExact(ino: nat, events: seq<Event>, states: seq<System>, n: nat)
    requires IsRun(ino, events, states) && n < |states|
    requires forall i :: 0 <= i < n ==> !events[i].Crash?
    ensures Exact(ino, states[n])
    ensures n > 0 && events[n - 1].Poll? && states[n - 1].t.Some? ==> states[n].delivered == Lines(states[n].content)
  {
    hide Lines, Tail;
    if n == 0 {
      NothingToRead();
      assert states[0].content[..0] == [];
    } else {
      CleanRunIsExact(ino, events, states, n - 1);
      var high := RunIsCovered(ino, events, states, n - 1);
      assert states[n] == Step(ino, states[n - 1], events[n - 1]);
      StepKeepsExact(ino, states[n - 1], events[n - 1], high);
    }
  }

  // ---- rotation and untimely stops ------------------------------------------------------------

  /** Rotation loses no complete line: the old file is finished through its handle, then the new one read from its start. */
  lemma RotationFinishesTheOldFile(t: Tailer, saved: Option<Saved>, disk: map<nat, seq<Byte>>, path: nat, now: int)
    requires t.open && t.ino in disk && path in disk && t.ino != path && InStep(t.ino, disk[t.ino], t)
    ensures Tick(t, saved, disk, Some(path), now).lines == Lines(disk[t.ino][Done(t)..]) + Lines(disk[path])
    ensures Done(Tick(t, saved, disk, Some(path), now).t) == |disk[path]| - |Tail(disk[path])|
  {
    hide Lines, Tail;
    var fresh_ := Opened(t, path, 0);
    assert t.partial + Unread(t, disk[t.ino]) == disk[t.ino][Done(t)..];
    assert fresh_.partial + Unread(fresh_, disk[path]) == disk[path];
  }

  /** A stop remembers the place reached unless that number was the last one saved, for whichever file. */
  lemma StopRemembersPlaceIff(t: Tailer, saved: Option<Saved>, now: int)
    requires Sound(t) && t.open
    ensures Stop(t, saved, now) == Some(Saved(t.ino, Done(t)))
       <==> (Done(t) != t.savedPos || saved == Some(Saved(t.ino, Done(t))))
  {
  }

  /** A started tailer hands over the complete lines from the remembered offset on. */
  lemma RestartReadsOn(ino: nat, content: seq<Byte>, at: nat, disk: map<nat, seq<Byte>>, now: int)
    requires at <= |content| && ino in disk && disk[ino] == content
    ensures Tick(STARTED, Some(Saved(ino, at)), disk, Some(ino), now).lines == Lines(content[at..])
  {
    hide Lines, Tail;
    var reader := Opened(STARTED, ino, at);
    assert reader.partial + Unread(reader, content) == content[at..];
  }

  /** Of another file's record a started tailer takes no notice. */
  lemma ForeignRecordReadsAll(other: Saved, ino: nat, disk: map<nat, seq<Byte>>, now: int)
    requires ino in disk && other.ino != ino
    ensures Tick(STARTED, Some(other), disk, Some(ino), now).lines == Lines(disk[ino])
  {
    hide Lines, Tail;
    var reader := Opened(STARTED, ino, 0);
    assert reader.partial + Unread(reader, disk[ino]) == disk[ino];
  }

  /** A poll that rotates: what is saved, and where the tailer stands in the new file. */
  lemma RotationSaves(t: Tailer, saved: Option<Saved>, disk: map<nat, seq<Byte>>, path: nat, now: int)
    requires t.open && t.ino in disk && path in disk && t.ino != path && InStep(t.ino, disk[t.ino], t)
    ensures var o, end := Tick(t, saved, disk, Some(path), now), |disk[path]| - |Tail(disk[path])|;
      && o.t.open && Sound(o.t) && o.t.ino == path && Done(o.t) == end
      && (end == t.savedPos ==> o.saved == saved && o.t.savedPos == t.savedPos)
      && (end != t.savedPos && o.t.savedPos == end ==> o.saved == Some(Saved(path, end)))
      && (o.t.savedPos == t.savedPos || o.t.savedPos == end)
  {
    hide Lines, Tail, NewlineAt, InStep;
    var reader := Opened(t, path, 0);
    assert reader.partial + Unread(reader, disk[path]) == disk[path];
    TailFits(disk[path], 0);
    DrainedIsSound(reader, disk[path]);
  }

  /**
   * After a rotation an orderly stop loses the place in the new file exactly when the lines read of it end at the offset
   * saved last for the old one: then the old record stays, and the restarted tailer hands all those lines over again.
   */
  lemma RotatedPlaceIsForgotten(t: Tailer, disk: map<nat, seq<Byte>>, path: nat, now: int, stopped: int, later: int)
    requires t.open && t.ino in disk && path in disk && t.ino != path && InStep(t.ino, disk[t.ino], t) && t.savedPos >= 0
    ensures var saved := Some(Saved(t.ino, t.savedPos));
      var o, end := Tick(t, saved, disk, Some(path), now), |disk[path]| - |Tail(disk[path])|;
      && Sound(o.t)
      && var remembered := Stop(o.t, o.saved, stopped);
      var again := Tick(STARTED, remembered, disk, Some(path), later).lines;
      && (remembered == saved <==> end == t.savedPos)
      && again == (if end == t.savedPos then Lines(disk[path]) else [])
  {
    hide Lines, Tail, NewlineAt, InStep, Tick;
    var saved := Saved(t.ino, t.savedPos);
    var content := disk[path];
    var end := |content| - |Tail(content)|;
    RotationSaves(t, Some(saved), disk, path, now);
    if end == t.savedPos {
      ForeignRecordReadsAll(saved, path, disk, later);
    } else {
      TailIsSuffix(content);
      RestartReadsOn(path, content, end, disk, later);
      NoLinesInTail(content);
    }
  }

  // ---- a stop while lines are handed over -----------------------------------------------------

  /** The fields while the callback runs: the position is past the chunk, the carried part still the one before it. */
  function WithinDrain(t: Tailer, bytesRead: nat): Tailer {
    t.(pos := t.pos + bytesRead)
  }

  /**
   * A stop while the line ending at offset `e` of the carried part and the chunk is handed over remembers the place reached
   * if and only if the chunk is as long as that, or saving is skipped and the record already says so.
   */
  lemma StopWithinDrainIff(t: Tailer, saved: Option<Saved>, n: nat, e: nat, now: int)
    requires Sound(t) && t.open
    ensures Stop(WithinDrain(t, n), saved, now) == Some(Saved(t.ino, Done(t) + e))
       <==> if Done(t) + n == t.savedPos then saved == Some(Saved(t.ino, Done(t) + e)) else n == e
    ensures Done(t) + n != t.savedPos ==> Stop(WithinDrain(t, n), saved, now) == Some(Saved(t.ino, Done(t) + n))
  {
  }

  /**
   * What the restarted tailer hands over then, however the file has grown: the rest of the lines when the chunk ends where
   * the line does; without the bytes in between when the chunk is longer; and those bytes again when it is shorter.
   */
  lemma StopWithinDrainResumes(t: Tailer, saved: Option<Saved>, content: seq<Byte>, n: nat, e: nat, more: seq<Byte>, now: int, later: int)
    requires t.open && InStep(t.ino, content, t) && t.pos + n <= |content| && Done(t) + n != t.savedPos
    requires 0 < e <= |t.partial| + n && content[Done(t) + e - 1] == NEWLINE
    ensures var d, whole := Done(t), content + more;
      var again := Tick(STARTED, Stop(WithinDrain(t, n), saved, now), map[t.ino := whole], Some(t.ino), later).lines;
      && Lines(whole[d..]) == Lines(whole[d..d + e]) + Lines(whole[d + e..])
      && (n == e ==> again == Lines(whole[d + e..]))
      && (n > e ==> again == Lines(whole[d + n..])
                    && Lines(whole[d + e..]) == Lines(whole[d + e..d + n]) + Lines(Tail(whole[d + e..d + n]) + whole[d + n..]))
      && (n < e ==> again == Lines(whole[d + n..d + e]) + Lines(whole[d + e..]))
  {
    hide Lines, Tail, NewlineAt;
    var d: nat, whole := Done(t), content + more;
    StopWithinDrainIff(t, saved, n, e, now);
    RestartReadsOn(t.ino, whole, d + n, map[t.ino := whole], later);
    assert whole[d + e - 1] == NEWLINE;
    CutAtLine(whole, d, d + e);
    if n > e {
      assert whole[d + e..] == whole[d + e..d + n] + whole[d + n..];
      SplitAnywhere(whole[d + e..d + n], whole[d + n..]);
    } else if n < e {
      CutAtLine(whole, d + n, d + e);
    }
  }

  lemma CutAtLine(c: seq<Byte>, from: nat, at: nat)
    requires from < at <= |c| && c[at - 1] == NEWLINE
    ensures Lines(c[from..]) == Lines(c[from..at]) + Lines(c[at..])
  {
    hide Lines, Tail, NewlineAt;
    var rest := c[from..];
    assert rest[at - from - 1] == c[at - 1] && rest[..at - from] == c[from..at] && rest[at - from..] == c[at..];
    SplitAtBoundary(rest, at - from);
  }

  const FIRST_LOG: seq<Byte> := [97, 10]
  const SECOND_LOG: seq<Byte> := [98, 10]

  /** An instance: a stop while the first of two lines is handed over remembers the end of both, and the second is never handed over. */
  lemma StopWithinDrainSkips()
    ensures var content := FIRST_LOG + SECOND_LOG;
      var remembered := Stop(WithinDrain(Opened(STARTED, 1, 0), |content|), None, 10_000);
      Tick(STARTED, remembered, map[1 := content], Some(1), 20_000).lines == [] && Lines(content[2..]) == [[98]]
  {
    var t, content := Opened(STARTED, 1, 0), FIRST_LOG + SECOND_LOG;
    assert NewlineAt([]) == None;
    StopWithinDrainIff(t, None, 4, 2, 10_000);
    RestartReadsOn(1, content, 4, map[1 := content], 20_000);
    assert content[4..] == [] && content[2..] == SECOND_LOG;
    assert SECOND_LOG[1..][1..] == [] && SECOND_LOG[2..] == [] && SECOND_LOG[..1] == [98];
    assert NewlineAt(SECOND_LOG[1..]) == Some(0) && NewlineAt(SECOND_LOG) == Some(1);
  }
}
