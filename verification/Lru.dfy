/** A bounded cache that forgets the key used longest ago. */
module LruCache {
  import opened Text

  predicate Distinct<K(==)>(s: seq<K>) {
    forall i, j :: 0 <= i < j < |s| ==> s[i] != s[j]
  }

  function Without<K(==)>(order: seq<K>, k: K): (r: seq<K>)
    ensures k !in order ==> r == order
  {
    if order == [] then []
    else
      var rest := Without(order[1..], k);
      assert order == [order[0]] + order[1..];
      if order[0] == k then rest else [order[0]] + rest
  }

  lemma {:induction false} WithoutSkips<K>(order: seq<K>, k: K, p: nat)
    requires Distinct(order) && p < |order| && order[p] == k
    ensures Without(order, k) == order[..p] + order[p + 1..]
  {
    assert order == [order[0]] + order[1..];
    if p == 0 {
      assert k !in order[1..];
    } else {
      WithoutSkips(order[1..], k, p - 1);
    }
  }

  lemma SkippingIsDistinct<K(!new)>(order: seq<K>, p: nat)
    requires Distinct(order) && p < |order|
    ensures Distinct(order[..p] + order[p + 1..])
    ensures forall x :: x in order[..p] + order[p + 1..] <==> x in order && x != order[p]
  {
    var rest := order[..p] + order[p + 1..];
    assert forall i :: 0 <= i < |rest| ==> rest[i] == order[if i < p then i else i + 1];
    forall x | x in order && x != order[p] ensures x in rest {
      var i :| 0 <= i < |order| && order[i] == x;
      assert rest[if i < p then i else i - 1] == x;
    }
  }

  /** Removing a key keeps the others, in order. */
  lemma WithoutIsDistinct<K(!new)>(order: seq<K>, k: K)
    requires Distinct(order)
    ensures Distinct(Without(order, k)) && forall x :: x in Without(order, k) <==> x in order && x != k
    ensures |Without(order, k)| == if k in order then |order| - 1 else |order|
  {
    if k in order {
      var p: nat :| p < |order| && order[p] == k;
      WithoutSkips(order, k, p);
      hide Without;
      SkippingIsDistinct(order, p);
    }
  }

  /** The keys by last use, oldest first, after one more use. */
  function Touched<K(==,!new)>(order: seq<K>, k: K): seq<K> {
    Without(order, k) + [k]
  }

  /** At most the last `n` elements. */
  function Last<T>(s: seq<T>, n: nat): seq<T> {
    if |s| <= n then s else s[|s| - n..]
  }

  class Lru<K(==,!new), V> {
    const max: nat
    var order: seq<K>
    var entries: map<K, V>

    /** The keys in order are those of the entries; only while a value is being set may there be too many. */
    ghost predicate KeysMatch()
      reads this
    {
      Distinct(order) && forall k :: k in order <==> k in entries
    }

    ghost predicate Valid()
      reads this
    {
      KeysMatch() && |order| <= max
    }

    constructor (max: nat)
      ensures Valid() && this.max == max && order == [] && entries == map[]
    {
      this.max, order, entries := max, [], map[];
    }

    method Get(k: K) returns (v: Option<V>)
      requires Valid()
      modifies this
      ensures Valid() && entries == old(entries)
      ensures v == if k in old(entries) then Some(old(entries)[k]) else None
      ensures order == if k in old(entries) then Last(Touched(old(order), k), max) else old(order)
    {
      WithoutIsDistinct(order, k);
      if k in entries {
        v := Some(entries[k]);
        order := Without(order, k);
        order := order + [k];
      } else {
        v := None;
      }
    }

    method Set(k: K, v: V)
      requires Valid()
      modifies this
      ensures Valid() && order == Last(Touched(old(order), k), max)
      ensures max > 0 ==> k in entries && entries[k] == v
      ensures forall x :: x in entries ==> if x == k then entries[x] == v else x in old(entries) && entries[x] == old(entries)[x]
    {
      WithoutIsDistinct(order, k);
      order := Without(order, k) + [k];
      entries := entries[k := v];
      ghost var whole, values := order, entries;
      ghost var gone: nat := 0;
      assert KeysMatch();
      while |order| > max
        invariant gone <= |whole| && order == whole[gone..] && (gone > 0 ==> |order| >= max) && KeysMatch()
        invariant forall x :: x in entries ==> x in values && entries[x] == values[x]
      {
        hide KeysMatch;
        EvictOldest();
        gone := gone + 1;
      }
      assert max > 0 ==> order[|order| - 1] == k;
    }

    method EvictOldest()
      requires KeysMatch() && order != []
      modifies this
      ensures KeysMatch() && order == old(order)[1..] && entries == old(entries) - {old(order)[0]}
    {
      var oldest := order[0];
      assert order == [oldest] + order[1..];
      entries := entries - {oldest};
      order := order[1..];
    }

    method Delete(k: K)
      requires Valid()
      modifies this
      ensures Valid() && order == Without(old(order), k) && entries == old(entries) - {k}
    {
      WithoutIsDistinct(order, k);
      order := Without(order, k);
      entries := entries - {k};
    }
  }

  // ---- what stays in the cache --------------------------------------------------------------

  /** A use is a hit or a new value; a miss leaves the cache alone. */
  datatype Op<K> = Use(key: K) | Drop(key: K)

  ghost function OrderAfter<K(!new)>(ops: seq<Op<K>>, max: nat): seq<K> {
    if ops == [] then []
    else
      var before, last := OrderAfter(ops[..|ops| - 1], max), ops[|ops| - 1];
      match last
      case Use(k) => Last(Touched(before, k), max)
      case Drop(k) => Without(before, k)
  }

  /** The keys used since the last mention of `k`. */
  ghost function UsedSince<K>(ops: seq<Op<K>>, k: K): set<K> {
    if ops == [] || ops[|ops| - 1].key == k then {}
    else UsedSince(ops[..|ops| - 1], k) + if ops[|ops| - 1].Use? then {ops[|ops| - 1].key} else {}
  }

  /** The last mention of `k` is a use. */
  ghost predicate Held<K>(ops: seq<Op<K>>, k: K) {
    ops != [] && if ops[|ops| - 1].key == k then ops[|ops| - 1].Use? else Held(ops[..|ops| - 1], k)
  }

  ghost predicate Sound<K(!new)>(ops: seq<Op<K>>, order: seq<K>, max: nat) {
    && Distinct(order) && |order| <= max
    && (forall k :: k in order ==> Held(ops, k))
    && (forall i, j :: 0 <= i < j < |order| ==> order[j] in UsedSince(ops, order[i]))
    && (forall k {:trigger Held(ops, k)} :: Held(ops, k) && k !in order ==> |UsedSince(ops, k)| >= max)
  }

  /** As many keys as a list without repeats has. */
  lemma {:induction false} ListedSet<K>(s: seq<K>) returns (whole: set<K>)
    requires Distinct(s)
    ensures |whole| == |s| && forall x :: x in whole <==> x in s
  {
    if s == [] {
      whole := {};
    } else {
      whole := ListedSet(s[1..]);
      assert s == [s[0]] + s[1..];
      whole := whole + {s[0]};
    }
  }

  lemma WithoutKeepsOrder<K(!new)>(order: seq<K>, k: K, i: nat, j: nat)
    requires Distinct(order) && i < j < |Without(order, k)|
    ensures exists a, b :: 0 <= a < b < |order| && order[a] == Without(order, k)[i] && order[b] == Without(order, k)[j]
  {
    var rest := Without(order, k);
    var a, b := i, j;
    if k in order {
      var p: nat :| p < |order| && order[p] == k;
      WithoutSkips(order, k, p);
      a, b := if i < p then i else i + 1, if j < p then j else j + 1;
    }
    assert order[a] == rest[i] && order[b] == rest[j];
  }

  /** Before anything is evicted, the order after a use or a drop lists keys by last use. */
  lemma StepSorts<K(!new)>(ops: seq<Op<K>>, op: Op<K>, order: seq<K>, max: nat, next: seq<K>)
    requires Sound(ops, order, max) && next == if op.Use? then Touched(order, op.key) else Without(order, op.key)
    ensures Distinct(next) && |next| <= max + 1
    ensures forall k :: k in next ==> Held(ops + [op], k)
    ensures forall i, j :: 0 <= i < j < |next| ==> next[j] in UsedSince(ops + [op], next[i])
    ensures forall k {:trigger Held(ops + [op], k)} :: Held(ops + [op], k) && k !in next ==> |UsedSince(ops + [op], k)| >= max
  {
    var whole := ops + [op];
    assert whole[..|ops|] == ops;
    var rest := Without(order, op.key);
    WithoutIsDistinct(order, op.key);
    forall i, j | 0 <= i < j < |next| ensures next[j] in UsedSince(whole, next[i]) {
      assert next[i] == rest[i];
      if j < |rest| {
        WithoutKeepsOrder(order, op.key, i, j);
      }
    }
    forall k | Held(whole, k) && k !in next ensures |UsedSince(whole, k)| >= max {
      assert Held(ops, k) && k !in order;
      SmallerSet(UsedSince(ops, k), UsedSince(whole, k));
    }
  }

  lemma {:induction false} OrderIsSound<K(!new)>(ops: seq<Op<K>>, max: nat)
    ensures Sound(ops, OrderAfter(ops, max), max)
  {
    if ops != [] {
      var before, op := ops[..|ops| - 1], ops[|ops| - 1];
      var order := OrderAfter(before, max);
      OrderIsSound(before, max);
      assert ops == before + [op];
      var next := if op.Use? then Touched(order, op.key) else Without(order, op.key);
      StepSorts(before, op, order, max, next);
      WithoutIsDistinct(order, op.key);
      EvictingIsSound(ops, next, max);
    }
  }

  lemma EvictingIsSound<K(!new)>(ops: seq<Op<K>>, next: seq<K>, max: nat)
    requires Distinct(next) && |next| <= max + 1
    requires forall k :: k in next ==> Held(ops, k)
    requires forall i, j :: 0 <= i < j < |next| ==> next[j] in UsedSince(ops, next[i])
    requires forall k {:trigger Held(ops, k)} :: Held(ops, k) && k !in next ==> |UsedSince(ops, k)| >= max
    ensures Sound(ops, Last(next, max), max)
  {
    var kept := Last(next, max);
    if |next| == max + 1 {
      assert kept == next[1..] && next == [next[0]] + kept;
      var whole := ListedSet(kept);
      forall x | x in whole ensures x in UsedSince(ops, next[0]) {
        var j :| 0 <= j < |kept| && kept[j] == x;
        assert next[j + 1] == x;
      }
      SmallerSet(whole, UsedSince(ops, next[0]));
    }
  }

  /**
   * In every run the cache holds at most `max` keys, and a key that was used and not deleted since is gone only if `max`
   * other keys were used after it.
   */
  lemma EvictedOnlyWhenCrowded<K(!new)>(ops: seq<Op<K>>, max: nat, k: K)
    ensures |OrderAfter(ops, max)| <= max
    ensures Held(ops, k) && |UsedSince(ops, k)| < max ==> k in OrderAfter(ops, max)
    ensures k in OrderAfter(ops, max) ==> Held(ops, k)
  {
    OrderIsSound(ops, max);
  }

  ghost predicate ListsAllSince<K(!new)>(ops: seq<Op<K>>, order: seq<K>) {
    forall i, x :: 0 <= i < |order| && x in UsedSince(ops, order[i]) ==> x in order[i + 1..]
  }

  lemma {:induction false} NothingDroppedListsAll<K(!new)>(ops: seq<Op<K>>, max: nat)
    requires forall i :: 0 <= i < |ops| ==> ops[i].Use?
    ensures ListsAllSince(ops, OrderAfter(ops, max))
  {
    if ops != [] {
      var before, k := ops[..|ops| - 1], ops[|ops| - 1].key;
      NothingDroppedListsAll(before, max);
      OrderIsSound(before, max);
      var order := OrderAfter(before, max);
      assert ops == before + [Use(k)];
      hide Touched, Last, ListsAllSince, UsedSince;
      TouchingListsAll(before, order, k);
      EvictingListsAll(ops, Touched(order, k), max);
    }
  }

  lemma EvictingListsAll<K(!new)>(ops: seq<Op<K>>, next: seq<K>, max: nat)
    requires ListsAllSince(ops, next)
    ensures ListsAllSince(ops, Last(next, max))
  {
    hide UsedSince;
    var kept := Last(next, max);
    var n := |next| - |kept|;
    forall i, x | 0 <= i < |kept| && x in UsedSince(ops, kept[i]) ensures x in kept[i + 1..] {
      assert kept[i] == next[n + i] && kept[i + 1..] == next[n + i + 1..];
    }
  }

  /** What comes later in the order still does when a key is taken out. */
  lemma LaterStaysLater<K(!new)>(order: seq<K>, p: nat, a: nat, b: nat, i: nat)
    requires Distinct(order) && p < |order| && a < b < |order| && a != p && b != p
    requires i < |order| - 1 && (order[..p] + order[p + 1..])[i] == order[a]
    ensures order[b] in (order[..p] + order[p + 1..])[i + 1..]
  {
    var rest := order[..p] + order[p + 1..];
    var source := if i < p then i else i + 1;
    assert rest[i] == order[source];
    assert source == a;
    var d := if b < p then b else b - 1;
    assert rest[d] == order[b] && rest[i + 1..][d - i - 1] == rest[d];
  }

  lemma UsedLater<K(!new)>(ops: seq<Op<K>>, order: seq<K>, k: K, i: nat, x: K)
    requires Distinct(order) && ListsAllSince(ops, order) && i < |Without(order, k)| && x != k
    requires x in UsedSince(ops, Without(order, k)[i])
    ensures x in Without(order, k)[i + 1..]
  {
    hide UsedSince;
    var rest := Without(order, k);
    if k in order {
      var p: nat :| p < |order| && order[p] == k;
      WithoutSkips(order, k, p);
      hide Without;
      var a := if i < p then i else i + 1;
      assert rest[i] == order[a];
      assert x in order[a + 1..];
      var b: nat :| a < b < |order| && order[b] == x;
      LaterStaysLater(order, p, a, b, i);
    }
  }

  lemma TouchingListsAll<K(!new)>(ops: seq<Op<K>>, order: seq<K>, k: K)
    requires Distinct(order) && ListsAllSince(ops, order)
    ensures ListsAllSince(ops + [Use(k)], Touched(order, k))
  {
    var whole, next, rest := ops + [Use(k)], Touched(order, k), Without(order, k);
    assert whole[..|ops|] == ops;
    WithoutIsDistinct(order, k);
    forall i, x | 0 <= i < |next| && x in UsedSince(whole, next[i]) ensures x in next[i + 1..] {
      assert i < |rest| && next[i] == rest[i] && rest[i] in rest;
      assert next[i + 1..] == rest[i + 1..] + [k];
      if x != k {
        UsedLater(ops, order, k, i, x);
      }
    }
  }

  lemma CachedIsRecent<K(!new)>(ops: seq<Op<K>>, order: seq<K>, i: nat)
    requires Distinct(order) && ListsAllSince(ops, order) && i < |order|
    ensures |UsedSince(ops, order[i])| < |order|
  {
    hide UsedSince;
    var later := ListedSet(order[i + 1..]);
    assert forall x :: x in UsedSince(ops, order[i]) ==> x in later;
    SmallerSet(UsedSince(ops, order[i]), later);
  }

  /** Without deletes the cache holds exactly the keys with fewer than `max` others used after them. */
  lemma CachedIffRecent<K(!new)>(ops: seq<Op<K>>, max: nat, k: K)
    requires forall i :: 0 <= i < |ops| ==> ops[i].Use?
    ensures k in OrderAfter(ops, max) <==> Held(ops, k) && |UsedSince(ops, k)| < max
  {
    EvictedOnlyWhenCrowded(ops, max, k);
    NothingDroppedListsAll(ops, max);
    OrderIsSound(ops, max);
    hide OrderAfter, Held, UsedSince, ListsAllSince;
    var order := OrderAfter(ops, max);
    if k in order {
      var i :| 0 <= i < |order| && order[i] == k;
      CachedIsRecent(ops, order, i);
    }
  }
}
