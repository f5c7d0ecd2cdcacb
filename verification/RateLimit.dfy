/** The sign-in throttle: counters and locks that expire, and how many password checks they let through. */
module RateLimit {
  import opened Text

  const WINDOW_S := 15 * 60
  const LOCK_S := 15 * 60

  datatype Kind = Ip | User

  function Limit(kind: Kind): nat {
    if kind.Ip? then 20 else 8
  }

  datatype Key = Key(kind: Kind, id: string)

  /** A stored counter with the second it expires at. */
  datatype Counter = Counter(count: nat, expires: int)

  /** What Redis holds; entries past their expiry are as good as gone. */
  datatype Store = Store(fails: map<Key, Counter>, locks: map<Key, int>)

  function Failures(s: Store, key: Key, now: int): nat {
    if key in s.fails && now < s.fails[key].expires then s.fails[key].count else 0
  }

  /** The seconds a key stays locked; 0 when it is not. */
  function IsLocked(s: Store, key: Key, now: int): nat {
    if key in s.locks && now < s.locks[key] then s.locks[key] - now else 0
  }

  /** Counts a failure: the first of a window starts its clock, and the limit locks the key. */
  function RecordFailure(s: Store, key: Key, now: int): Store {
    var count := Failures(s, key, now) + 1;
    var expires := if count == 1 then now + WINDOW_S else s.fails[key].expires;
    Store(s.fails[key := Counter(count, expires)],
          if count >= Limit(key.kind) then s.locks[key := now + LOCK_S] else s.locks)
  }

  function ClearFailures(s: Store, key: Key): Store {
    Store(s.fails - {key}, s.locks - {key})
  }

  class Throttle {
    var fails: map<Key, Counter>
    var locks: map<Key, int>

    ghost function Now(): Store
      reads this
    {
      Store(fails, locks)
    }

    constructor ()
      ensures Now() == Store(map[], map[])
    {
      fails, locks := map[], map[];
    }

    method Fail(key: Key, now: int) returns (lockedFor: nat)
      modifies this
      ensures Now() == RecordFailure(old(Now()), key, now)
      ensures lockedFor == if Failures(old(Now()), key, now) + 1 >= Limit(key.kind) then LOCK_S else 0
    {
      var alive := key in fails && now < fails[key].expires;
      var count := if alive then fails[key].count + 1 else 1;
      var expires := if count == 1 then now + WINDOW_S else fails[key].expires;
      fails := fails[key := Counter(count, expires)];
      if count >= Limit(key.kind) {
        locks := locks[key := now + LOCK_S];
        return LOCK_S;
      }
      return 0;
    }

    method Clear(key: Key)
      modifies this
      ensures Now() == ClearFailures(old(Now()), key)
    {
      fails, locks := fails - {key}, locks - {key};
    }

    /** The part of a sign-in the throttle sees; `ok` is the outcome the password check has if it is made. */
    method Login(ip: string, email: string, banned: bool, ok: bool, now: int) returns (checked: bool)
      modifies this
      ensures Now() == AfterLogin(old(Now()), Attempt(ip, email, banned, ok, now))
      ensures checked <==> Checks(old(Now()), Attempt(ip, email, banned, ok, now))
    {
      if banned {
        return false;
      }
      var ipLock := if Key(Ip, ip) in locks && now < locks[Key(Ip, ip)] then locks[Key(Ip, ip)] - now else 0;
      var userLock := if Key(User, email) in locks && now < locks[Key(User, email)] then locks[Key(User, email)] - now else 0;
      if ipLock > 0 || userLock > 0 {
        return false;
      }
      checked := true;
      if ok {
        Clear(Key(Ip, ip));
        Clear(Key(User, email));
      } else {
        var a := Fail(Key(Ip, ip), now);
        var b := Fail(Key(User, email), now);
      }
    }
  }

  // ---- sign-ins as steps --------------------------------------------------------------------

  datatype Attempt = Attempt(ip: string, email: string, banned: bool, ok: bool, at: int)

  /** The password is looked at: the address is not banned, and neither it nor the account is locked. */
  predicate Checks(s: Store, a: Attempt) {
    !a.banned && IsLocked(s, Key(Ip, a.ip), a.at) == 0 && IsLocked(s, Key(User, a.email), a.at) == 0
  }

  function AfterLogin(s: Store, a: Attempt): Store {
    if !Checks(s, a) then s
    else if a.ok then ClearFailures(ClearFailures(s, Key(Ip, a.ip)), Key(User, a.email))
    else RecordFailure(RecordFailure(s, Key(Ip, a.ip), a.at), Key(User, a.email), a.at)
  }

  predicate Touches(a: Attempt, key: Key) {
    key == Key(Ip, a.ip) || key == Key(User, a.email)
  }

  function StoreAfter(attempts: seq<Attempt>): Store {
    if attempts == [] then Store(map[], map[])
    else AfterLogin(StoreAfter(attempts[..|attempts| - 1]), attempts[|attempts| - 1])
  }

  /** A failed password check of one key: when, and the counter it left. */
  datatype Failure = Failure(at: int, count: nat)

  /** The failed password checks of a key, in order. */
  function FailedChecks(attempts: seq<Attempt>, key: Key): seq<Failure> {
    if attempts == [] then []
    else
      var before, a := attempts[..|attempts| - 1], attempts[|attempts| - 1];
      var s := StoreAfter(before);
      FailedChecks(before, key) +
      (if Touches(a, key) && Checks(s, a) && !a.ok then [Failure(a.at, Failures(s, key, a.at) + 1)] else [])
  }

  /** The failed password checks of a key since its last successful one, in order. */
  function FailedSince(attempts: seq<Attempt>, key: Key): seq<Failure> {
    if attempts == [] then []
    else
      var before, a := attempts[..|attempts| - 1], attempts[|attempts| - 1];
      LoginTells(StoreAfter(before), a, key, FailedSince(before, key))
  }

  /** What a sign-in adds to the failed checks of a key, or that it ends them. */
  function LoginTells(s: Store, a: Attempt, key: Key, h: seq<Failure>): seq<Failure> {
    if !Touches(a, key) || !Checks(s, a) then h
    else if a.ok then []
    else h + [Failure(a.at, Failures(s, key, a.at) + 1)]
  }

  // ---- the shape of a run ---------------------------------------------------------------------

  /**
   * Check number `k` against the ones before it: it either continues its window or begins one after the window before it
   * ran out, and after a check that reached the limit nothing happens until the lock ran out.
   */
  ghost predicate Follows(h: seq<Failure>, k: nat, limit: nat)
    requires k < |h|
  {
    var prev := if k == 0 then Failure(0, 0) else h[k - 1];
    && 1 <= h[k].count <= limit
    && h[k].count <= k + 1
    && (k > 0 ==> prev.at <= h[k].at && 1 <= prev.count <= k)
    && (h[k].count != 1 ==> h[k].count == prev.count + 1 && prev.count <= k && h[k].at < h[k - prev.count].at + WINDOW_S)
    && (h[k].count == 1 && k > 0 && prev.count <= k ==> h[k - prev.count].at + WINDOW_S <= h[k].at)
    && (k > 0 && prev.count == limit ==> prev.at + LOCK_S <= h[k].at)
  }

  /** The counter and lock a history of checks leaves. */
  ghost predicate Reflects(s: Store, key: Key, h: seq<Failure>) {
    && (h == [] ==> key !in s.fails && key !in s.locks)
    && (h != [] ==>
         var last := h[|h| - 1];
         && key in s.fails && s.fails[key].count == last.count && 1 <= last.count <= |h|
         && s.fails[key].expires == h[|h| - last.count].at + WINDOW_S
         && (last.count == Limit(key.kind) ==> key in s.locks && s.locks[key] == last.at + LOCK_S))
    && (key in s.locks ==> exists k :: 0 <= k < |h| && LocksUntil(h[k], key.kind, s.locks[key]))
    && (forall k :: 0 <= k < |h| && h[k].count == Limit(key.kind) ==> key in s.locks && h[k].at + LOCK_S <= s.locks[key])
  }

  /** This failed check locked the key, until then. */
  predicate LocksUntil(f: Failure, kind: Kind, until: int) {
    f.count == Limit(kind) && f.at + LOCK_S == until
  }

  ghost predicate Orderly(h: seq<Failure>, limit: nat) {
    && (forall k :: 0 <= k < |h| ==> Follows(h, k, limit))
    && (forall i, j :: 0 <= i < j < |h| ==> h[i].at <= h[j].at)
  }

  lemma RecordIsOrderly(s: Store, key: Key, h: seq<Failure>, now: int)
    requires Reflects(s, key, h) && Orderly(h, Limit(key.kind)) && IsLocked(s, key, now) == 0
    requires h != [] ==> h[|h| - 1].at <= now
    ensures Orderly(h + [Failure(now, Failures(s, key, now) + 1)], Limit(key.kind))
  {
    var next := h + [Failure(now, Failures(s, key, now) + 1)];
    var k := |h|;
    forall i | 0 <= i < |next|
      ensures Follows(next, i, Limit(key.kind))
    {
      if i < k {
        assert Follows(h, i, Limit(key.kind));
      } else if k > 0 {
        assert Follows(h, k - 1, Limit(key.kind));
        assert next[k - h[k - 1].count] == h[k - h[k - 1].count];
        assert h[k - h[k - 1].count].at <= h[k - 1].at;
      }
    }
  }

  lemma RecordReflects(s: Store, key: Key, h: seq<Failure>, now: int)
    requires Reflects(s, key, h) && Orderly(h, Limit(key.kind)) && IsLocked(s, key, now) == 0
    requires h != [] ==> h[|h| - 1].at <= now
    ensures var next := h + [Failure(now, Failures(s, key, now) + 1)];
      Reflects(RecordFailure(s, key, now), key, next) && Orderly(next, Limit(key.kind))
  {
    var next, k, after := h + [Failure(now, Failures(s, key, now) + 1)], |h|, RecordFailure(s, key, now);
    RecordIsOrderly(s, key, h, now);
    assert Follows(next, k, Limit(key.kind));
    hide Orderly, Follows;
    if next[k].count == Limit(key.kind) {
      assert LocksUntil(next[k], key.kind, after.locks[key]);
    } else if key in s.locks {
      var i :| 0 <= i < |h| && LocksUntil(h[i], key.kind, s.locks[key]);
      assert next[i] == h[i];
    }
  }

  lemma RecordLeavesOthers(s: Store, key: Key, other: Key, h: seq<Failure>, now: int)
    requires Reflects(s, key, h) && other != key
    ensures Reflects(RecordFailure(s, other, now), key, h)
    ensures Failures(RecordFailure(s, other, now), key, now) == Failures(s, key, now)
    ensures IsLocked(RecordFailure(s, other, now), key, now) == IsLocked(s, key, now)
  {
  }

  /** No successful sign-in with the key: nothing resets its counter. */
  ghost predicate NoSuccess(attempts: seq<Attempt>, key: Key) {
    forall i :: 0 <= i < |attempts| && Touches(attempts[i], key) ==> !attempts[i].ok
  }

  ghost predicate InOrder(attempts: seq<Attempt>) {
    forall i, j :: 0 <= i < j < |attempts| ==> attempts[i].at <= attempts[j].at
  }

  lemma ClearLeavesOthers(s: Store, key: Key, other: Key, h: seq<Failure>)
    requires Reflects(s, key, h) && other != key
    ensures Reflects(ClearFailures(s, other), key, h)
  {
  }

  /**
   * In every run the failed checks of a key since its last successful sign-in have this shape, and the stored counter and
   * lock are what they leave.
   */
  lemma {:induction false} RunIsOrderly(attempts: seq<Attempt>, key: Key)
    requires InOrder(attempts)
    ensures Reflects(StoreAfter(attempts), key, FailedSince(attempts, key))
    ensures Orderly(FailedSince(attempts, key), Limit(key.kind))
    ensures forall k :: 0 <= k < |FailedSince(attempts, key)| ==>
      exists i :: 0 <= i < |attempts| && attempts[i].at == FailedSince(attempts, key)[k].at
  {
    hide Reflects, Orderly, IsLocked, Failures;
    if attempts == [] {
      NothingYet(key);
    } else {
      var before, a := attempts[..|attempts| - 1], attempts[|attempts| - 1];
      RunIsOrderly(before, key);
      var s, h := StoreAfter(before), FailedSince(before, key);
      forall k | 0 <= k < |h|
        ensures h[k].at <= a.at && exists i :: 0 <= i < |attempts| && attempts[i].at == h[k].at
      {
        var i :| 0 <= i < |before| && before[i].at == h[k].at;
        assert attempts[i] == before[i];
      }
      LoginReflects(s, a, key, h);
    }
  }

  lemma NothingYet(key: Key)
    ensures Reflects(Store(map[], map[]), key, []) && Orderly([], Limit(key.kind))
  {
  }

  lemma ClearingForgets(s: Store, one: Key, other: Key)
    ensures var cleared := ClearFailures(ClearFailures(s, one), other);
      Reflects(cleared, one, []) && Reflects(cleared, other, []) && Orderly([], Limit(one.kind)) && Orderly([], Limit(other.kind))
  {
  }

  lemma LoginReflects(s: Store, a: Attempt, key: Key, h: seq<Failure>)
    requires Reflects(s, key, h) && Orderly(h, Limit(key.kind))
    requires forall k :: 0 <= k < |h| ==> h[k].at <= a.at
    ensures var next := LoginTells(s, a, key, h);
      Reflects(AfterLogin(s, a), key, next) && Orderly(next, Limit(key.kind))
  {
    hide Reflects, Orderly, RecordFailure, ClearFailures, IsLocked, Failures;
    var ipKey, userKey := Key(Ip, a.ip), Key(User, a.email);
    if Checks(s, a) {
      if a.ok && Touches(a, key) {
        ClearingForgets(s, ipKey, userKey);
      } else if a.ok {
        ClearLeavesOthers(s, key, ipKey, h);
        ClearLeavesOthers(ClearFailures(s, ipKey), key, userKey, h);
      } else if key == ipKey {
        RecordReflects(s, key, h, a.at);
        RecordLeavesOthers(RecordFailure(s, key, a.at), key, userKey, h + [Failure(a.at, Failures(s, key, a.at) + 1)], a.at);
      } else {
        RecordLeavesOthers(s, key, ipKey, h, a.at);
        if key == userKey {
          RecordReflects(RecordFailure(s, ipKey, a.at), key, h, a.at);
        } else {
          RecordLeavesOthers(RecordFailure(s, ipKey, a.at), key, userKey, h, a.at);
        }
      }
    }
  }

  lemma {:induction false} NoSuccessForgetsNothing(attempts: seq<Attempt>, key: Key)
    requires NoSuccess(attempts, key)
    ensures FailedSince(attempts, key) == FailedChecks(attempts, key)
  {
    if attempts != [] {
      NoSuccessForgetsNothing(attempts[..|attempts| - 1], key);
      hide Checks, Failures;
    }
  }

  // ---- who is let through -----------------------------------------------------------------------

  /** Within the last fifteen minutes a check of the key reached the limit. */
  ghost predicate LockedOut(h: seq<Failure>, limit: nat, now: int) {
    exists k :: 0 <= k < |h| && h[k].count == limit && now < h[k].at + 900
  }

  lemma LockedIff(s: Store, key: Key, h: seq<Failure>, now: int)
    requires Reflects(s, key, h)
    ensures IsLocked(s, key, now) > 0 <==> LockedOut(h, if key.kind.Ip? then 20 else 8, now)
  {
  }

  /**
   * In every run a password is looked at if and only if the address is not banned and neither twenty failures in the
   * counting window of the address nor eight in that of the account, with no success of theirs since, lie less than fifteen
   * minutes back.
   */
  lemma CheckedIff(attempts: seq<Attempt>, a: Attempt)
    requires InOrder(attempts)
    ensures Checks(StoreAfter(attempts), a) <==>
      && !a.banned && !LockedOut(FailedSince(attempts, Key(Ip, a.ip)), 20, a.at)
      && !LockedOut(FailedSince(attempts, Key(User, a.email)), 8, a.at)
  {
    var s := StoreAfter(attempts);
    RunIsOrderly(attempts, Key(Ip, a.ip));
    RunIsOrderly(attempts, Key(User, a.email));
    hide Reflects, LockedOut, FailedSince, StoreAfter, Orderly;
    LockedIff(s, Key(Ip, a.ip), FailedSince(attempts, Key(Ip, a.ip)), a.at);
    LockedIff(s, Key(User, a.email), FailedSince(attempts, Key(User, a.email)), a.at);
  }

  /** After a successful sign-in the address and the account count from nothing again. */
  lemma SuccessForgets(attempts: seq<Attempt>, a: Attempt, key: Key)
    requires a.ok && Checks(StoreAfter(attempts), a) && Touches(a, key)
    ensures FailedSince(attempts + [a], key) == []
    ensures Failures(StoreAfter(attempts + [a]), key, a.at) == 0 && IsLocked(StoreAfter(attempts + [a]), key, a.at) == 0
  {
    hide Checks, Failures, IsLocked, Touches;
    var whole := attempts + [a];
    assert whole[..|whole| - 1] == attempts;
    NothingLeft(StoreAfter(attempts), a, key);
  }

  lemma NothingLeft(s: Store, a: Attempt, key: Key)
    requires a.ok && Checks(s, a) && Touches(a, key)
    ensures Failures(AfterLogin(s, a), key, a.at) == 0 && IsLocked(AfterLogin(s, a), key, a.at) == 0
  {
  }

  // ---- the bound ------------------------------------------------------------------------------

  /** From a window's first check on, counts go up by one until the next window begins. */
  lemma {:induction false} WindowRunsUp(h: seq<Failure>, limit: nat, i: nat, j: nat)
    requires Orderly(h, limit) && i <= j < |h|
    requires forall m :: i < m <= j ==> h[m].count != 1
    ensures h[j].count == h[i].count + (j - i)
  {
    if i < j {
      WindowRunsUp(h, limit, i, j - 1);
      assert Follows(h, j, limit);
    }
  }

  /** A window has at most `limit` checks, so soon after any check another window begins. */
  lemma NextWindow(h: seq<Failure>, limit: nat, i: nat) returns (b: nat)
    requires Orderly(h, limit) && i < |h| && i + limit - h[i].count + 1 < |h|
    ensures i < b <= i + limit - h[i].count + 1 && h[b].count == 1
    ensures forall m :: i < m < b ==> h[m].count != 1
  {
    assert Follows(h, i, limit);
    b := i + 1;
    while h[b].count != 1
      invariant i < b <= i + limit - h[i].count + 1
      invariant forall m :: i < m < b ==> h[m].count != 1
      decreases |h| - b
    {
      WindowRunsUp(h, limit, i, b);
      assert Follows(h, b, limit);
      b := b + 1;
    }
  }

  /** The window begun at `b` starts at least a window's length after the one `i` belongs to, and later than a full lock. */
  lemma WindowsAreApart(h: seq<Failure>, limit: nat, i: nat, b: nat)
    requires Orderly(h, limit) && i < b < |h| && h[b].count == 1 && (forall m :: i < m < b ==> h[m].count != 1)
    ensures h[i].count <= i + 1 && h[i + 1 - h[i].count].at + WINDOW_S <= h[b].at
    ensures h[b - 1].count == h[i].count + (b - 1 - i)
    ensures h[b - 1].count == limit ==> h[i].at + LOCK_S <= h[b].at
  {
    WindowRunsUp(h, limit, i, b - 1);
    assert Follows(h, b, limit) && Follows(h, i, limit);
    assert h[i].at <= h[b - 1].at;
  }

  /** Any 2·limit − 1 consecutive failed checks span at least the fifteen minutes of a window. */
  lemma ManyChecksTakeLong(h: seq<Failure>, limit: nat, i: nat)
    requires Orderly(h, limit) && limit >= 2 && i + 2 * limit - 2 < |h|
    ensures h[i].at + WINDOW_S <= h[i + 2 * limit - 2].at
  {
    var last := i + 2 * limit - 2;
    assert Follows(h, i, limit);
    var b := NextWindow(h, limit, i);
    WindowsAreApart(h, limit, i, b);
    assert h[b].at <= h[last].at;
    if h[i].count > 1 && h[b - 1].count < limit {
      assert b <= i + limit - h[i].count;
      var c := NextWindow(h, limit, b);
      WindowsAreApart(h, limit, b, c);
      assert h[i].at <= h[b].at;
      assert h[c].at <= h[last].at;
    }
  }

  /**
   * While a key sees no successful sign-in, any half-open stretch of fifteen minutes holds at most 2·limit − 2 failed
   * password checks for it: 14 for an account and 38 for an address.
   */
  lemma ChecksPerWindowAreBounded(attempts: seq<Attempt>, key: Key, from: int, i: nat, j: nat)
    requires InOrder(attempts) && NoSuccess(attempts, key)
    requires i <= j < |FailedChecks(attempts, key)|
    requires from <= FailedChecks(attempts, key)[i].at && FailedChecks(attempts, key)[j].at < from + WINDOW_S
    ensures j - i + 1 <= 2 * Limit(key.kind) - 2
    ensures 2 * Limit(User) - 2 == 14 && 2 * Limit(Ip) - 2 == 38
  {
    RunIsOrderly(attempts, key);
    NoSuccessForgetsNothing(attempts, key);
    var h := FailedChecks(attempts, key);
    if j - i + 1 > 2 * Limit(key.kind) - 2 {
      ManyChecksTakeLong(h, Limit(key.kind), i);
    }
  }

  // ---- the bound is reached ---------------------------------------------------------------------

  /** One early check, then a burst before and a burst after the window runs out; the other key is new each time. */
  function WorstAttempt(kind: Kind, i: nat): Attempt {
    var at := if i == 0 then 0 else if i <= Limit(kind) - 2 then WINDOW_S - 1 else WINDOW_S;
    if kind.Ip? then Attempt("x", Decimal(i), false, false, at) else Attempt(Decimal(i), "x", false, false, at)
  }

  function Worst(kind: Kind, n: nat): (r: seq<Attempt>)
    ensures |r| == n
    ensures forall i :: 0 <= i < n ==> r[i] == WorstAttempt(kind, i)
  {
    if n == 0 then [] else Worst(kind, n - 1) + [WorstAttempt(kind, n - 1)]
  }

  function WorstFailure(kind: Kind, i: nat): Failure {
    Failure(WorstAttempt(kind, i).at, if i <= Limit(kind) - 2 then i + 1 else i - Limit(kind) + 2)
  }

  /** The key of the other kind that attempt `i` counts against. */
  function OtherKey(kind: Kind, i: nat): Key {
    if kind.Ip? then Key(User, Decimal(i)) else Key(Ip, Decimal(i))
  }

  /** What the store holds after `n` of the attempts. */
  ghost predicate WorstState(kind: Kind, n: nat, s: Store) {
    var key := Key(kind, "x");
    && (if n == 0 then key !in s.fails
        else key in s.fails && s.fails[key] == Counter(WorstFailure(kind, n - 1).count,
                                                       if n <= Limit(kind) - 1 then WINDOW_S else 2 * WINDOW_S))
    && (n < 2 * Limit(kind) - 1 ==> key !in s.locks)
    && forall i: nat {:trigger OtherKey(kind, i)} :: n <= i ==> OtherKey(kind, i) !in s.fails && OtherKey(kind, i) !in s.locks
  }

  lemma WorstCounts(kind: Kind, n: nat, s: Store)
    requires 0 < n <= 2 * Limit(kind) - 1 && WorstState(kind, n - 1, s)
    ensures Failures(s, Key(kind, "x"), WorstAttempt(kind, n - 1).at) + 1 == WorstFailure(kind, n - 1).count
    ensures Checks(s, WorstAttempt(kind, n - 1)) && Touches(WorstAttempt(kind, n - 1), Key(kind, "x"))
    ensures Failures(s, OtherKey(kind, n - 1), WorstAttempt(kind, n - 1).at) == 0
  {
    assert OtherKey(kind, n - 1) !in s.locks;
  }

  lemma OthersAreNew(kind: Kind, n: nat, i: nat)
    requires 0 < n <= i
    ensures OtherKey(kind, i) != OtherKey(kind, n - 1) && OtherKey(kind, i) != Key(kind, "x")
  {
    if OtherKey(kind, i) == OtherKey(kind, n - 1) {
      DecimalInjective(i, n - 1);
    }
  }

  /** Recording touches nothing but the key's own entries. */
  lemma RecordTouches(s: Store, key: Key, other: Key, now: int)
    requires other != key
    ensures var t := RecordFailure(s, key, now);
      && (other in t.fails <==> other in s.fails) && (other in s.fails ==> t.fails[other] == s.fails[other])
      && (other in t.locks <==> other in s.locks) && Failures(t, other, now) == Failures(s, other, now)
  {
  }

  lemma RecordCounts(s: Store, key: Key, now: int)
    ensures var t, count := RecordFailure(s, key, now), Failures(s, key, now) + 1;
      && key in t.fails && t.fails[key].count == count
      && t.fails[key].expires == (if count == 1 then now + WINDOW_S else s.fails[key].expires)
      && (count < Limit(key.kind) ==> (key in t.locks <==> key in s.locks))
  {
  }

  lemma WorstStep(kind: Kind, n: nat, s: Store)
    requires 0 < n <= 2 * Limit(kind) - 1 && WorstState(kind, n - 1, s)
    ensures WorstState(kind, n, AfterLogin(s, WorstAttempt(kind, n - 1)))
  {
    var a, key, other := WorstAttempt(kind, n - 1), Key(kind, "x"), OtherKey(kind, n - 1);
    WorstCounts(kind, n, s);
    var first, second := if kind.Ip? then key else other, if kind.Ip? then other else key;
    var between := RecordFailure(s, first, a.at);
    var after := RecordFailure(between, second, a.at);
    assert after == AfterLogin(s, a);
    RecordTouches(s, first, second, a.at);
    RecordTouches(between, second, first, a.at);
    RecordCounts(s, first, a.at);
    RecordCounts(between, second, a.at);
    hide RecordFailure, AfterLogin, Failures, Checks;
    forall i: nat | n <= i ensures OtherKey(kind, i) !in after.fails && OtherKey(kind, i) !in after.locks {
      OthersAreNew(kind, n, i);
      RecordTouches(s, first, OtherKey(kind, i), a.at);
      RecordTouches(between, second, OtherKey(kind, i), a.at);
    }
  }

  function WorstFailures(kind: Kind, n: nat): (r: seq<Failure>)
    ensures |r| == n
    ensures forall i :: 0 <= i < n ==> r[i] == WorstFailure(kind, i)
  {
    if n == 0 then [] else WorstFailures(kind, n - 1) + [WorstFailure(kind, n - 1)]
  }

  lemma OneMoreFailure(before: seq<Attempt>, a: Attempt, key: Key)
    requires Touches(a, key) && Checks(StoreAfter(before), a) && !a.ok
    ensures StoreAfter(before + [a]) == AfterLogin(StoreAfter(before), a)
    ensures FailedChecks(before + [a], key) == FailedChecks(before, key) + [Failure(a.at, Failures(StoreAfter(before), key, a.at) + 1)]
  {
    hide Checks, Touches, Failures, AfterLogin;
    var whole := before + [a];
    assert whole[..|whole| - 1] == before && whole[|whole| - 1] == a;
  }

  lemma WorstStart(kind: Kind)
    ensures WorstState(kind, 0, StoreAfter(Worst(kind, 0)))
    ensures FailedChecks(Worst(kind, 0), Key(kind, "x")) == WorstFailures(kind, 0)
  {
  }

  lemma WorstGrows(kind: Kind, n: nat)
    requires n > 0
    ensures Worst(kind, n) == Worst(kind, n - 1) + [WorstAttempt(kind, n - 1)] && !WorstAttempt(kind, n - 1).ok
    ensures WorstFailures(kind, n) == WorstFailures(kind, n - 1) + [WorstFailure(kind, n - 1)]
    ensures WorstFailure(kind, n - 1).at == WorstAttempt(kind, n - 1).at
  {
  }

  lemma {:induction false} WorstRun(kind: Kind, n: nat)
    requires n <= 2 * Limit(kind) - 1
    ensures WorstState(kind, n, StoreAfter(Worst(kind, n)))
    ensures FailedChecks(Worst(kind, n), Key(kind, "x")) == WorstFailures(kind, n)
  {
    hide *;
    if n == 0 {
      WorstStart(kind);
    } else {
      WorstRun(kind, n - 1);
      WorstGrows(kind, n);
      var before, a := Worst(kind, n - 1), WorstAttempt(kind, n - 1);
      WorstCounts(kind, n, StoreAfter(before));
      WorstStep(kind, n, StoreAfter(before));
      OneMoreFailure(before, a, Key(kind, "x"));
    }
  }

  /** The bound cannot be lowered: attempts bunched around the end of a window are checked as often as it says. */
  lemma BoundIsReached(kind: Kind) returns (attempts: seq<Attempt>, i: nat, j: nat)
    ensures var key, h := Key(kind, "x"), FailedChecks(attempts, Key(kind, "x"));
      && InOrder(attempts) && NoSuccess(attempts, key)
      && i <= j < |h| && h[j].at < h[i].at + WINDOW_S && j - i + 1 == 2 * Limit(kind) - 2
  {
    var n := 2 * Limit(kind) - 1;
    attempts, i, j := Worst(kind, n), 1, n - 1;
    WorstRun(kind, n);
    WorstIsOrderly(kind, n);
    hide Worst, WorstFailures, FailedChecks, WorstState, InOrder, NoSuccess, WorstAttempt;
    assert WorstFailures(kind, n)[1].at == WINDOW_S - 1 && WorstFailures(kind, n)[n - 1].at == WINDOW_S by {
      WorstTimes(kind);
    }
  }

  lemma WorstIsOrderly(kind: Kind, n: nat)
    ensures InOrder(Worst(kind, n)) && NoSuccess(Worst(kind, n), Key(kind, "x"))
  {
  }

  lemma WorstTimes(kind: Kind)
    ensures WorstFailure(kind, 1).at == WINDOW_S - 1 && WorstFailure(kind, 2 * Limit(kind) - 2).at == WINDOW_S
  {
  }
}
