/** Following a log file: chunked reads, a carried partial line, rotation, truncation and a remembered offset. */
module LogTail {
  import opened Text

  type Byte = n: nat | n < 256

  const NEWLINE: Byte := 0x0A
  const CARRIAGE_RETURN: Byte := 0x0D
  const CHUNK := 256 * 1024
  const SAVE_MS := 5000

  // ---- lines --------------------------------------------------------------------------

  function NewlineAt(b: seq<Byte>): (r: Option<nat>)
    ensures r.Some? ==> r.value < |b| && b[r.value] == NEWLINE
  {
    if b == [] then None
    else if b[0] == NEWLINE then Some(0)
    else
      match NewlineAt(b[1..])
      case None => None
      case Some(n) => Some(n + 1)
  }

  /** `NewlineAt` finds the first newline there is. */
  lemma {:induction false} NewlineAtIsFirst(b: seq<Byte>, i: nat)
    requires i < |b| && b[i] == NEWLINE
    ensures NewlineAt(b).Some? && NewlineAt(b).value <= i
  {
    if b[0] != NEWLINE {
      NewlineAtIsFirst(b[1..], i - 1);
    }
  }

  /** A line without the carriage return it may end in. */
  function Stripped(line: seq<Byte>): seq<Byte> {
    if line != [] && line[|line| - 1] == CARRIAGE_RETURN then line[..|line| - 1] else line
  }

  function NonEmptyLine(line: seq<Byte>): seq<seq<Byte>> {
    if Stripped(line) == [] then [] else [Stripped(line)]
  }

  /** The non-empty lines of `b` that end in a newline, in order. */
  function Lines(b: seq<Byte>): seq<seq<Byte>>
    decreases |b|
  {
    match NewlineAt(b)
    case None => []
    case Some(n) => NonEmptyLine(b[..n]) + Lines(b[n + 1..])
  }

  /** What follows the last newline. */
  function Tail(b: seq<Byte>): (r: seq<Byte>)
    ensures |r| <= |b|
    decreases |b|
  {
    match NewlineAt(b)
    case None => b
    case Some(n) => Tail(b[n + 1..])
  }

  lemma {:induction false} TailIsSuffix(b: seq<Byte>)
    ensures Tail(b) == b[|b| - |Tail(b)|..]
    decreases |b|
  {
    if NewlineAt(b).Some? {
      var rest := b[NewlineAt(b).value + 1..];
      TailIsSuffix(rest);
      assert rest[|rest| - |Tail(rest)|..] == b[|b| - |Tail(b)|..];
    }
  }

  lemma {:induction false} TailHasNoNewline(b: seq<Byte>)
    ensures NewlineAt(Tail(b)).None?
    decreases |b|
  {
    if NewlineAt(b).Some? {
      TailHasNoNewline(b[NewlineAt(b).value + 1..]);
    }
  }

  /** An offset at which a line starts. */
  predicate Boundary(b: seq<Byte>, at: nat) {
    at <= |b| && (at == 0 || b[at - 1] == NEWLINE)
  }

  lemma {:induction false} NewlineInPrefix(a: seq<Byte>, b: seq<Byte>)
    requires NewlineAt(a).Some?
    ensures NewlineAt(a + b) == NewlineAt(a)
  {
    if a[0] != NEWLINE {
      NewlineInPrefix(a[1..], b);
      assert (a + b)[1..] == a[1..] + b;
    }
  }

  /** Texts each ended by a newline. */
  function Ended(texts: seq<seq<Byte>>): seq<Byte> {
    if texts == [] then [] else texts[0] + [10] + Ended(texts[1..])
  }

  /** What is handed over of them: each without the carriage return it ends in, and none that is empty then. */
  function Handed(texts: seq<seq<Byte>>): seq<seq<Byte>> {
    if texts == [] then []
    else
      var t := texts[0];
      var bare := if t != [] && t[|t| - 1] == 13 then t[..|t| - 1] else t;
      (if bare == [] then [] else [bare]) + Handed(texts[1..])
  }

  /** Texts without newlines, each ended by one, are split into those texts; what follows the last newline is carried over. */
  lemma {:induction false} EndedTextsAreSplit(texts: seq<seq<Byte>>, rest: seq<Byte>)
    requires (forall i :: 0 <= i < |texts| ==> 10 !in texts[i]) && 10 !in rest
    ensures Lines(Ended(texts) + rest) == Handed(texts) && Tail(Ended(texts) + rest) == rest
  {
    hide *;
    if texts == [] {
      NothingEnded(rest);
    } else {
      EndedTextsAreSplit(texts[1..], rest);
      FirstText(texts, rest);
      var b, t := Ended(texts) + rest, texts[0];
      TextThenNewline(t, Ended(texts[1..]) + rest);
      LinesStep(b);
    }
  }

  lemma NothingEnded(rest: seq<Byte>)
    requires 10 !in rest
    ensures Lines(Ended([]) + rest) == Handed([]) && Tail(Ended([]) + rest) == rest
  {
    assert Ended([]) + rest == rest;
    assert forall i :: 0 <= i < |rest| ==> rest[i] in rest && rest[i] != 10;
  }

  lemma FirstText(texts: seq<seq<Byte>>, rest: seq<Byte>)
    requires texts != []
    ensures Ended(texts) + rest == texts[0] + ([10] + (Ended(texts[1..]) + rest))
    ensures Handed(texts) == NonEmptyLine(texts[0]) + Handed(texts[1..])
  {
    assert Handed(texts) == NonEmptyLine(texts[0]) + Handed(texts[1..]);
    var t, more := texts[0], Ended(texts[1..]);
    assert Ended(texts) == (t + [10]) + more;
    hide *;
    Associate(t + [10], more, rest);
    Associate(t, [10], more + rest);
  }

  /** A text and a newline: the newline found is that one. */
  lemma TextThenNewline(t: seq<Byte>, more: seq<Byte>)
    requires 10 !in t
    ensures NewlineAt(t + ([10] + more)) == Some(|t|)
    ensures (t + ([10] + more))[..|t|] == t && (t + ([10] + more))[|t| + 1..] == more
  {
    var b := t + ([10] + more);
    assert b[|t|] == 10;
    NewlineAtIsFirst(b, |t|);
    assert forall i :: 0 <= i < |t| ==> b[i] == t[i] && t[i] in t && b[i] != 10;
  }

  lemma LinesStep(b: seq<Byte>)
    requires NewlineAt(b).Some?
    ensures var n := NewlineAt(b).value; Lines(b) == NonEmptyLine(b[..n]) + Lines(b[n + 1..]) && Tail(b) == Tail(b[n + 1..])
  {
  }

  lemma NoLineLeft(b: seq<Byte>)
    requires NewlineAt(b).None?
    ensures Lines(b) == [] && Tail(b) == b
  {
  }

  lemma FirstLine(b: seq<Byte>, out: seq<seq<Byte>>)
    requires NewlineAt(b).Some?
    ensures var n := NewlineAt(b).value;
      && out + Lines(b) == (out + NonEmptyLine(b[..n])) + Lines(b[n + 1..])
      && Tail(b) == Tail(b[n + 1..])
  {
    LinesStep(b);
    hide NonEmptyLine, Lines, Tail, NewlineAt;
    var n := NewlineAt(b).value;
    Associate(out, NonEmptyLine(b[..n]), Lines(b[n + 1..]));
  }

  lemma Associate<T>(a: seq<T>, b: seq<T>, c: seq<T>)
    ensures (a + b) + c == a + (b + c)
  {
  }

  function Slice(b: seq<Byte>, from: nat, to: nat): seq<Byte> {
    if from <= to <= |b| then b[from..to] else []
  }

  /** Reading on from `at` to `next`, with the partial line carried over. */
  lemma SliceMore(partial: seq<Byte>, b: seq<Byte>, from: nat, at: nat, next: nat)
    requires from <= at <= next <= |b|
    ensures Lines(partial + Slice(b, from, next))
         == Lines(partial + Slice(b, from, at)) + Lines(Tail(partial + Slice(b, from, at)) + b[at..next])
    ensures Tail(partial + Slice(b, from, next)) == Tail(Tail(partial + Slice(b, from, at)) + b[at..next])
  {
    assert partial + Slice(b, from, next) == (partial + Slice(b, from, at)) + b[at..next];
    SplitAnywhere(partial + Slice(b, from, at), b[at..next]);
  }

  /** Splitting a stream anywhere loses nothing when the part after the last newline is carried over. */
  lemma {:induction false} SplitAnywhere(a: seq<Byte>, b: seq<Byte>)
    ensures Lines(a + b) == Lines(a) + Lines(Tail(a) + b)
    ensures Tail(a + b) == Tail(Tail(a) + b)
    decreases |a|
  {
    hide *;
    if NewlineAt(a).Some? {
      SplitAnywhere(a[NewlineAt(a).value + 1..], b);
      SplitAfterALine(a, b);
    } else {
      SplitWithoutALine(a, b);
    }
  }

  lemma SplitWithoutALine(a: seq<Byte>, b: seq<Byte>)
    requires NewlineAt(a).None?
    ensures Lines(a + b) == Lines(a) + Lines(Tail(a) + b) && Tail(a + b) == Tail(Tail(a) + b)
  {
    hide *;
    NoLineLeft(a);
  }

  lemma SplitAfterALine(a: seq<Byte>, b: seq<Byte>)
    requires NewlineAt(a).Some?
    requires var rest := a[NewlineAt(a).value + 1..];
      Lines(rest + b) == Lines(rest) + Lines(Tail(rest) + b) && Tail(rest + b) == Tail(Tail(rest) + b)
    ensures Lines(a + b) == Lines(a) + Lines(Tail(a) + b) && Tail(a + b) == Tail(Tail(a) + b)
  {
    hide *;
    var line, rest := a[..NewlineAt(a).value], a[NewlineAt(a).value + 1..];
    SplitPastALine(a, b);
    LinesStep(a);
    LinesStep(a + b);
    Associate(NonEmptyLine(line), Lines(rest), Lines(Tail(rest) + b));
  }

  lemma SplitPastALine(a: seq<Byte>, b: seq<Byte>)
    requires NewlineAt(a).Some?
    ensures NewlineAt(a + b) == NewlineAt(a)
    ensures var n := NewlineAt(a).value; (a + b)[..n] == a[..n] && (a + b)[n + 1..] == a[n + 1..] + b
  {
    NewlineInPrefix(a, b);
  }

  lemma BoundaryHasNoTail(b: seq<Byte>)
    requires Boundary(b, |b|)
    ensures Tail(b) == []
  {
    var r := Tail(b);
    TailIsSuffix(b);
    TailHasNoNewline(b);
    if r != [] {
      NewlineAtIsFirst(r, |r| - 1);
    }
  }

  /** At a line start a stream splits without anything to carry over. */
  lemma SplitAtBoundary(b: seq<Byte>, at: nat)
    requires Boundary(b, at)
    ensures Lines(b) == Lines(b[..at]) + Lines(b[at..])
    ensures Tail(b) == Tail(b[at..])
  {
    assert b == b[..at] + b[at..];
    BoundaryHasNoTail(b[..at]);
    SplitAnywhere(b[..at], b[at..]);
    assert Tail(b[..at]) + b[at..] == b[at..];
  }

  lemma {:induction false} TailStartsALine(b: seq<Byte>)
    ensures Boundary(b, |b| - |Tail(b)|)
    decreases |b|
  {
    if NewlineAt(b).Some? {
      var n := NewlineAt(b).value;
      var rest := b[n + 1..];
      TailStartsALine(rest);
      var at := |rest| - |Tail(rest)|;
      assert at > 0 ==> rest[at - 1] == b[n + at];
    }
  }

  lemma NoLinesInTail(b: seq<Byte>)
    ensures Lines(Tail(b)) == []
  {
    TailHasNoNewline(b);
  }

  /** What is left over holds no complete line. */
  lemma LinesEndWhereTailStarts(b: seq<Byte>)
    ensures Lines(b[..|b| - |Tail(b)|]) == Lines(b)
  {
    hide *;
    var at := |b| - |Tail(b)|;
    TailStartsALine(b);
    SplitAtBoundary(b, at);
    TailIsSuffix(b);
    NoLinesInTail(b);
  }

  // ---- the tailer as a value ------------------------------------------------------------

  /** The offset remembered in the settings, with the file it belongs to. */
  datatype Saved = Saved(ino: nat, pos: nat)

  /** The fields of a running tailer; `open` says whether it holds a file handle. */
  datatype Tailer = Tailer(open: bool, ino: nat, pos: nat, partial: seq<Byte>, savedPos: int, lastSave: int)

  const STARTED := Tailer(false, 0, 0, [], -1, 0)

  /** A step's outcome: the tailer, the remembered offset, and the lines handed over. */
  datatype Outcome = Outcome(t: Tailer, saved: Option<Saved>, lines: seq<seq<Byte>>)

  /** What is carried over was read from the file and holds no newline. */
  predicate Sound(t: Tailer) {
    |t.partial| <= t.pos && NewlineAt(t.partial).None?
  }

  /** The end of the last complete line read. */
  function Done(t: Tailer): int {
    t.pos - |t.partial|
  }

  function Unread(t: Tailer, content: seq<Byte>): seq<Byte> {
    Slice(content, t.pos, |content|)
  }

  function Drained(t: Tailer, content: seq<Byte>): Tailer {
    t.(pos := if t.pos < |content| then |content| else t.pos, partial := Tail(t.partial + Unread(t, content)))
  }

  function DrainedLines(t: Tailer, content: seq<Byte>): seq<seq<Byte>> {
    Lines(t.partial + Unread(t, content))
  }

  lemma DrainedIsSound(t: Tailer, content: seq<Byte>)
    requires Sound(t)
    ensures Sound(Drained(t, content))
  {
    TailHasNoNewline(t.partial + Unread(t, content));
  }

  function Opened(t: Tailer, ino: nat, pos: nat): Tailer {
    t.(open := true, ino := ino, pos := pos, partial := [])
  }

  predicate SkipsSave(t: Tailer, force: bool, now: int) {
    !t.open || Done(t) == t.savedPos || (!force && now - t.lastSave < SAVE_MS)
  }

  function AfterSave(t: Tailer, saved: Option<Saved>, force: bool, now: int): (Tailer, Option<Saved>)
    requires Sound(t)
  {
    if SkipsSave(t, force, now) then (t, saved)
    else (t.(savedPos := Done(t), lastSave := now), Some(Saved(t.ino, Done(t))))
  }

  /** Where a newly opened file is picked up: at the remembered offset when it is this file and long enough. */
  function ResumeAt(saved: Option<Saved>, ino: nat, size: nat): nat {
    if saved.Some? && saved.value.ino == ino && saved.value.pos <= size then saved.value.pos else 0
  }

  /** The tailer as a tick finds it ready to drain the file at the path, and the lines finished in a rotated file. */
  function Prepared(t: Tailer, saved: Option<Saved>, disk: map<nat, seq<Byte>>, ino: nat): (Tailer, seq<seq<Byte>>)
    requires ino in disk && (t.open ==> t.ino in disk)
  {
    if !t.open then (Opened(t, ino, ResumeAt(saved, ino, |disk[ino]|)), [])
    else if t.ino != ino then (Opened(t, ino, 0), DrainedLines(t, disk[t.ino]))
    else if |disk[ino]| < t.pos then (t.(pos := 0, partial := []), [])
    else (t, [])
  }

  /** One poll; `path` is the inode the path names, if the file exists. */
  function Tick(t: Tailer, saved: Option<Saved>, disk: map<nat, seq<Byte>>, path: Option<nat>, now: int): Outcome
    requires Sound(t) && (path.Some? ==> path.value in disk) && (t.open ==> t.ino in disk)
  {
    if path.None? then Outcome(t, saved, []) else
    var (ready, finished) := Prepared(t, saved, disk, path.value);
    var content := disk[path.value];
    DrainedIsSound(ready, content);
    var (after, kept) := AfterSave(Drained(ready, content), saved, false, now);
    Outcome(after, kept, finished + DrainedLines(ready, content))
  }

  /** An orderly stop saves at once and closes the file. */
  function Stop(t: Tailer, saved: Option<Saved>, now: int): Option<Saved>
    requires Sound(t)
  {
    AfterSave(t, saved, true, now).1
  }

  lemma NothingRead(t: Tailer)
    requires Sound(t)
    ensures forall content :: Tail(t.partial + Slice(content, t.pos, t.pos)) == t.partial
    ensures forall content :: Lines(t.partial + Slice(content, t.pos, t.pos)) == []
  {
    forall content
      ensures Tail(t.partial + Slice(content, t.pos, t.pos)) == t.partial
      ensures Lines(t.partial + Slice(content, t.pos, t.pos)) == []
    {
      assert t.partial + Slice(content, t.pos, t.pos) == t.partial;
    }
  }

  // ---- the running object -----------------------------------------------------------------

  class LogTailer {
    var fileOpen: bool
    var ino: nat
    var pos: nat
    var partial: seq<Byte>
    var savedPos: int
    var lastSave: int
    /** the row of app_settings */
    var saved: Option<Saved>
    /** the lines handed to the callback so far */
    ghost var delivered: seq<seq<Byte>>

    ghost function Now(): Tailer
      reads this
    {
      Tailer(fileOpen, ino, pos, partial, savedPos, lastSave)
    }

    constructor (remembered: Option<Saved>)
      ensures Now() == STARTED && saved == remembered && delivered == []
    {
      fileOpen, ino, pos, partial, savedPos, lastSave := false, 0, 0, [], -1, 0;
      saved, delivered := remembered, [];
    }

    method OpenFile(newIno: nat, at: nat)
      modifies this
      ensures Now() == Opened(old(Now()), newIno, at) && saved == old(saved) && delivered == old(delivered)
    {
      fileOpen, ino, pos, partial := true, newIno, at, [];
    }

    /** Hands over the complete lines of `input` and returns the rest. */
    method SplitLines(input: seq<Byte>) returns (data: seq<Byte>)
      modifies this`delivered
      ensures data == Tail(input) && delivered == old(delivered) + Lines(input)
    {
      hide NonEmptyLine, Lines, Tail, NewlineAt;
      data := input;
      var nl := NewlineAt(data);
      ghost var out: seq<seq<Byte>> := [];
      while nl.Some?
        invariant nl == NewlineAt(data) && Tail(data) == Tail(input)
        invariant out + Lines(data) == Lines(input) && delivered == old(delivered) + out
        decreases |data|
      {
        FirstLine(data, out);
        HandOver(data[..nl.value]);
        out := out + NonEmptyLine(data[..nl.value]);
        data := data[nl.value + 1..];
        nl := NewlineAt(data);
      }
      NoLineLeft(data);
    }

    /** Calls back with a line unless it is empty. */
    method HandOver(raw: seq<Byte>)
      modifies this`delivered
      ensures delivered == old(delivered) + NonEmptyLine(raw)
    {
      var line := Stripped(raw);
      if line != [] {
        delivered := delivered + [line];
      }
    }

    /** Reads the file to its end, in reads of any size the system chooses. */
    method Drain(content: seq<Byte>)
      requires Sound(Now()) && fileOpen
      modifies this
      ensures Now() == Drained(old(Now()), content) && saved == old(saved)
      ensures delivered == old(delivered) + DrainedLines(old(Now()), content)
    {
      hide Lines, Tail, NewlineAt;
      ghost var start := Now();
      ghost var out: seq<seq<Byte>> := [];
      NothingRead(start);
      while pos < |content|
        invariant start.pos <= pos && (pos <= |content| || pos == start.pos)
        invariant Now() == start.(pos := pos, partial := partial)
        invariant partial == Tail(start.partial + Slice(content, start.pos, pos))
        invariant out == Lines(start.partial + Slice(content, start.pos, pos))
        invariant delivered == old(delivered) + out && saved == old(saved)
        decreases |content| - pos
      {
        var bytesRead :| 1 <= bytesRead <= CHUNK && bytesRead <= |content| - pos;
        SliceMore(start.partial, content, start.pos, pos, pos + bytesRead);
        var input := partial + content[pos..pos + bytesRead];
        pos := pos + bytesRead;
        partial := SplitLines(input);
        out := out + Lines(input);
      }
    }

    method Save(force: bool, now: int)
      requires Sound(Now())
      modifies this
      ensures (Now(), saved) == AfterSave(old(Now()), old(saved), force, now) && delivered == old(delivered)
    {
      if !fileOpen {
        return;
      }
      var done := pos - |partial|;
      if done == savedPos || (!force && now - lastSave < SAVE_MS) {
        return;
      }
      saved := Some(Saved(ino, done));
      savedPos, lastSave := done, now;
    }

    method Poll(disk: map<nat, seq<Byte>>, path: Option<nat>, now: int)
      requires Sound(Now()) && (path.Some? ==> path.value in disk) && (fileOpen ==> ino in disk)
      modifies this
      ensures Sound(Now())
      ensures old(delivered) <= delivered
      ensures Outcome(Now(), saved, delivered[|old(delivered)|..]) == Tick(old(Now()), old(saved), disk, path, now)
    {
      hide Lines, Tail;
      if path.None? {
        return;
      }
      var found := path.value;
      var size := |disk[found]|;
      if !fileOpen {
        var resume := if saved.Some? && saved.value.ino == found && saved.value.pos <= size then saved.value.pos else 0;
        OpenFile(found, resume);
      } else if found != ino {
        Drain(disk[ino]);
        OpenFile(found, 0);
      } else if size < pos {
        pos, partial := 0, [];
      }
      DrainedIsSound(Now(), disk[found]);
      Drain(disk[found]);
      Save(false, now);
    }

    method StopNow(now: int)
      requires Sound(Now())
      modifies this
      ensures saved == Stop(old(Now()), old(saved), now) && !fileOpen && delivered == old(delivered)
    {
      Save(true, now);
      fileOpen := false;
    }
  }
}
