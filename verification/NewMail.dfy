/** Announcing new mail: scans of an open mailbox, one after the other, and which messages they announce. */
module NewMail {

  predicate Ascending(s: seq<nat>) {
    forall i, j :: 0 <= i < j < |s| ==> s[i] < s[j]
  }

  /**
   * What one scan announces and the UID the next one starts from. A response may begin below the UID asked for, because
   * the range n:* always includes the newest message (RFC 3501, section 6.4.8).
   */
  function Scanned(fetched: seq<nat>, nextUid: nat): (r: (seq<nat>, nat))
    ensures nextUid <= r.1
  {
    if fetched == [] then ([], nextUid)
    else
      var before, uid := Scanned(fetched[..|fetched| - 1], nextUid), fetched[|fetched| - 1];
      if uid < before.1 then before else (before.0 + [uid], uid + 1)
  }

  function Max(a: nat, b: nat): nat {
    if a > b then a else b
  }

  class Announcer {
    var nextUid: nat
    var sent: seq<nat>

    /** The server says which UID comes next when the mailbox is opened; 0 stands for no answer. */
    constructor (uidNext: nat)
      ensures nextUid == (if uidNext == 0 then 1 else uidNext) && sent == []
    {
      nextUid, sent := if uidNext == 0 then 1 else uidNext, [];
    }

    method Scan(fetched: seq<nat>)
      modifies this
      ensures (sent, nextUid) == (old(sent) + Scanned(fetched, old(nextUid)).0, Scanned(fetched, old(nextUid)).1)
    {
      ghost var start := nextUid;
      var found := [];
      for k := 0 to |fetched|
        invariant (found, nextUid) == Scanned(fetched[..k], start) && sent == old(sent)
      {
        assert fetched[..k + 1][..k] == fetched[..k];
        if fetched[k] >= nextUid {
          found := found + [fetched[k]];
          nextUid := Max(nextUid, fetched[k] + 1);
        }
      }
      assert fetched[..|fetched|] == fetched;
      sent := sent + found;
    }
  }

  ghost predicate Reached(fetched: seq<nat>, nextUid: nat, after: nat) {
    && (forall i :: 0 <= i < |fetched| ==> fetched[i] < after)
    && (after == nextUid || exists i :: 0 <= i < |fetched| && after == fetched[i] + 1)
  }

  /** Announcements ascend, and the next start lies just behind the highest UID met. */
  lemma {:induction false} ScannedBounds(fetched: seq<nat>, nextUid: nat)
    ensures var (found, after) := Scanned(fetched, nextUid);
      && Ascending(found) && (forall i :: 0 <= i < |found| ==> nextUid <= found[i] < after)
      && Reached(fetched, nextUid, after)
  {
    if fetched != [] {
      ScannedBounds(fetched[..|fetched| - 1], nextUid);
    }
  }

  ghost predicate FirstOfItsHeight(fetched: seq<nat>, nextUid: nat, u: nat, k: int) {
    0 <= k < |fetched| && fetched[k] == u && nextUid <= u && forall j :: 0 <= j < k ==> fetched[j] < u
  }

  ghost predicate Announces(fetched: seq<nat>, nextUid: nat, u: nat) {
    exists k :: FirstOfItsHeight(fetched, nextUid, u, k)
  }

  lemma AnnouncesOneMore(before: seq<nat>, uid: nat, nextUid: nat, u: nat)
    ensures Announces(before + [uid], nextUid, u)
       <==> Announces(before, nextUid, u) || (u == uid && nextUid <= u && forall j :: 0 <= j < |before| ==> before[j] < u)
  {
    var whole := before + [uid];
    assert forall j :: 0 <= j < |before| ==> whole[j] == before[j];
    if k :| FirstOfItsHeight(before, nextUid, u, k) {
      assert FirstOfItsHeight(whole, nextUid, u, k);
    }
    if k :| FirstOfItsHeight(whole, nextUid, u, k) {
      if k < |before| {
        assert FirstOfItsHeight(before, nextUid, u, k);
      } else {
        assert forall j :: 0 <= j < |before| ==> before[j] == whole[j];
      }
    }
    if u == uid && nextUid <= u && forall j :: 0 <= j < |before| ==> before[j] < u {
      assert FirstOfItsHeight(whole, nextUid, u, |before|);
    }
  }

  /** In whatever order a response comes, a scan announces exactly the messages from its start on that come after lower ones only. */
  lemma {:induction false} ScannedIff(fetched: seq<nat>, nextUid: nat, u: nat)
    ensures u in Scanned(fetched, nextUid).0 <==> Announces(fetched, nextUid, u)
  {
    if fetched != [] {
      var before, uid := fetched[..|fetched| - 1], fetched[|fetched| - 1];
      ScannedIff(before, nextUid, u);
      ScannedBounds(before, nextUid);
      assert fetched == before + [uid];
      AnnouncesOneMore(before, uid, nextUid, u);
      hide Announces;
    }
  }

  // ---- runs -----------------------------------------------------------------------------------

  /** UIDs grow: what a later state of the folder has and an earlier one had not is above all the earlier one had. */
  ghost predicate Grows(folders: seq<seq<nat>>) {
    && (forall k :: 0 <= k < |folders| ==> Ascending(folders[k]))
    && forall i, j, u, v :: 0 <= i < j < |folders| && u in folders[i] && v in folders[j] && v !in folders[i] ==> u < v
  }

  /** The server's answer to n:*, in ascending order. */
  ghost predicate Answers(folder: seq<nat>, nextUid: nat, fetched: seq<nat>) {
    && Ascending(fetched) && (forall u :: u in fetched ==> u in folder)
    && forall u :: u in folder && nextUid <= u ==> u in fetched
  }

  /** The announcements and the next start after the scans so far; scan `k` sees `folders[k]` and gets `responses[k]`. */
  function After(responses: seq<seq<nat>>, uidNext: nat): (seq<nat>, nat) {
    if responses == [] then ([], uidNext)
    else
      var before := After(responses[..|responses| - 1], uidNext);
      var scan := Scanned(responses[|responses| - 1], before.1);
      (before.0 + scan.0, scan.1)
  }

  ghost predicate IsRun(folders: seq<seq<nat>>, responses: seq<seq<nat>>, uidNext: nat) {
    && |folders| == |responses| && Grows(folders)
    && forall k :: 0 <= k < |folders| ==> Answers(folders[k], After(responses[..k], uidNext).1, responses[k])
  }

  /** `u` was in the mailbox during some scan. */
  ghost predicate Seen(folders: seq<seq<nat>>, u: nat) {
    exists k :: 0 <= k < |folders| && u in folders[k]
  }

  /** After the scans everything seen lies below the next start, which is where the run began or just behind something seen. */
  ghost predicate Caught(folders: seq<seq<nat>>, uidNext: nat, next: nat) {
    && uidNext <= next && (forall u: nat :: Seen(folders, u) && uidNext <= u ==> u < next)
    && (next == uidNext || exists last: nat :: Seen(folders, last) && next == last + 1)
  }

  lemma AscendingAnnounces(fetched: seq<nat>, nextUid: nat, u: nat)
    requires Ascending(fetched)
    ensures Announces(fetched, nextUid, u) <==> u in fetched && nextUid <= u
  {
    if u in fetched && nextUid <= u {
      var k :| 0 <= k < |fetched| && fetched[k] == u;
      assert FirstOfItsHeight(fetched, nextUid, u, k);
    }
  }

  lemma SeenOneMore(folders: seq<seq<nat>>, u: nat)
    requires folders != []
    ensures Seen(folders, u) <==> Seen(folders[..|folders| - 1], u) || u in folders[|folders| - 1]
  {
    var before := folders[..|folders| - 1];
    if k :| 0 <= k < |folders| && u in folders[k] {
      assert k < |before| ==> before[k] == folders[k];
    }
    if k :| 0 <= k < |before| && u in before[k] {
      assert u in folders[k];
    }
  }

  /** A message now below the start of the scan was there when the highest message so far was. */
  lemma BelowStartWasSeen(folders: seq<seq<nat>>, uidNext: nat, next: nat, u: nat)
    requires folders != [] && Grows(folders) && Caught(folders[..|folders| - 1], uidNext, next)
    requires u in folders[|folders| - 1] && uidNext <= u < next
    ensures Seen(folders[..|folders| - 1], u)
  {
    var before := folders[..|folders| - 1];
    var last: nat :| Seen(before, last) && next == last + 1;
    var i :| 0 <= i < |before| && last in before[i];
    assert before[i] == folders[i];
    assert u in folders[i];
  }

  lemma RunBefore(folders: seq<seq<nat>>, responses: seq<seq<nat>>, uidNext: nat)
    requires IsRun(folders, responses, uidNext) && folders != []
    ensures IsRun(folders[..|folders| - 1], responses[..|folders| - 1], uidNext)
    ensures Answers(folders[|folders| - 1], After(responses[..|folders| - 1], uidNext).1, responses[|folders| - 1])
  {
    var n := |folders| - 1;
    forall k | 0 <= k < n ensures Answers(folders[..n][k], After(responses[..n][..k], uidNext).1, responses[..n][k]) {
      assert responses[..n][..k] == responses[..k];
      assert Answers(folders[k], After(responses[..k], uidNext).1, responses[k]);
    }
  }

  lemma ScanKeepsCaught(folders: seq<seq<nat>>, uidNext: nat, next: nat, fetched: seq<nat>)
    requires folders != [] && Grows(folders) && Caught(folders[..|folders| - 1], uidNext, next)
    requires Answers(folders[|folders| - 1], next, fetched)
    ensures Caught(folders, uidNext, Scanned(fetched, next).1)
  {
    var folder, after := folders[|folders| - 1], Scanned(fetched, next).1;
    ScannedBounds(fetched, next);
    forall u: nat | Seen(folders, u) && uidNext <= u ensures u < after {
      SeenOneMore(folders, u);
    }
    if after != next {
      var i :| 0 <= i < |fetched| && after == fetched[i] + 1;
      SeenOneMore(folders, fetched[i]);
    } else if next != uidNext {
      var last: nat :| Seen(folders[..|folders| - 1], last) && next == last + 1;
      SeenOneMore(folders, last);
    }
  }

  /**
   * Over every run of scans, mail arriving and vanishing in between, exactly the messages that arrived after the mailbox was
   * opened and were there at some scan are announced, each once and in order.
   */
  lemma {:induction false} EachArrivalIsAnnouncedOnce(folders: seq<seq<nat>>, responses: seq<seq<nat>>, uidNext: nat, u: nat)
    requires IsRun(folders, responses, uidNext)
    ensures var (sent, next) := After(responses, uidNext);
      && Ascending(sent) && (forall i :: 0 <= i < |sent| ==> sent[i] < next) && Caught(folders, uidNext, next)
      && (u in sent <==> Seen(folders, u) && uidNext <= u)
  {
    if folders != [] {
      var n := |folders| - 1;
      var fetched, next := responses[n], After(responses[..n], uidNext).1;
      RunBefore(folders, responses, uidNext);
      EachArrivalIsAnnouncedOnce(folders[..n], responses[..n], uidNext, u);
      ScanKeepsCaught(folders, uidNext, next, fetched);
      ScannedBounds(fetched, next);
      ScannedIff(fetched, next, u);
      AscendingAnnounces(fetched, next, u);
      SeenOneMore(folders, u);
      if u in folders[n] && uidNext <= u < next {
        BelowStartWasSeen(folders, uidNext, next, u);
      }
    }
  }
}
