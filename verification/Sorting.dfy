/** Stable sorting by an integer key, as JavaScript's Array.prototype.sort does it. */
module Sorting {

  /** Puts `x` in front of the first element whose key is not smaller. */
  function Insert<T>(x: T, s: seq<T>, key: T -> int): seq<T> {
    if s == [] || key(x) <= key(s[0]) then [x] + s else [s[0]] + Insert(x, s[1..], key)
  }

  function SortBy<T>(s: seq<T>, key: T -> int): (r: seq<T>)
    ensures |r| == |s|
  {
    if s == [] then [] else
    var r := Insert(s[0], SortBy(s[1..], key), key);
    InsertPermutes(s[0], SortBy(s[1..], key), key);
    r
  }

  ghost predicate Ordered<T>(s: seq<T>, key: T -> int) {
    forall i, j :: 0 <= i < j < |s| ==> key(s[i]) <= key(s[j])
  }

  ghost predicate NoDuplicates<T>(s: seq<T>) {
    forall i, j :: 0 <= i < j < |s| ==> s[i] != s[j]
  }

  lemma {:induction false} InsertPermutes<T>(x: T, s: seq<T>, key: T -> int)
    ensures multiset(Insert(x, s, key)) == multiset(s) + multiset{x}
    ensures |Insert(x, s, key)| == |s| + 1
  {
    if s == [] || key(x) <= key(s[0]) {
    } else {
      InsertPermutes(x, s[1..], key);
      assert s == [s[0]] + s[1..];
    }
  }

  lemma {:induction false} InsertKeepsOrder<T>(x: T, s: seq<T>, key: T -> int)
    requires Ordered(s, key)
    ensures Ordered(Insert(x, s, key), key)
  {
    if s == [] || key(x) <= key(s[0]) {
    } else {
      InsertKeepsOrder(x, s[1..], key);
      var rest := Insert(x, s[1..], key);
      InsertPermutes(x, s[1..], key);
      forall j | 0 <= j < |rest|
        ensures key(s[0]) <= key(rest[j])
      {
        assert rest[j] in multiset(rest);
        assert rest[j] == x || rest[j] in s[1..];
      }
    }
  }

  lemma {:induction false} SortPermutes<T>(s: seq<T>, key: T -> int)
    ensures multiset(SortBy(s, key)) == multiset(s)
    ensures forall x :: x in SortBy(s, key) <==> x in s
  {
    if s != [] {
      SortPermutes(s[1..], key);
      InsertPermutes(s[0], SortBy(s[1..], key), key);
      assert s == [s[0]] + s[1..];
    }
    forall x
      ensures x in SortBy(s, key) <==> x in s
    {
      assert x in SortBy(s, key) <==> x in multiset(SortBy(s, key));
      assert x in s <==> x in multiset(s);
    }
  }

  lemma {:induction false} SortOrders<T>(s: seq<T>, key: T -> int)
    ensures Ordered(SortBy(s, key), key)
  {
    if s != [] {
      SortOrders(s[1..], key);
      InsertKeepsOrder(s[0], SortBy(s[1..], key), key);
    }
  }

  lemma {:induction false} CountsMeanNoDuplicates<T>(s: seq<T>)
    ensures NoDuplicates(s) <==> forall x :: x in s ==> multiset(s)[x] == 1
  {
    if s != [] {
      CountsMeanNoDuplicates(s[1..]);
      assert s == [s[0]] + s[1..];
      assert multiset(s) == multiset{s[0]} + multiset(s[1..]);
      if NoDuplicates(s) {
        assert NoDuplicates(s[1..]);
        assert s[0] !in s[1..];
      }
      if forall x :: x in s ==> multiset(s)[x] == 1 {
        assert s[0] in s && s[0] !in multiset(s[1..]);
        forall x | x in s[1..]
          ensures multiset(s[1..])[x] == 1
        {
          assert x in s;
        }
        forall i, j | 0 <= i < j < |s|
          ensures s[i] != s[j]
        {
          assert s[j] == s[1..][j - 1];
          if i > 0 {
            assert s[i] == s[1..][i - 1];
          }
        }
      }
    }
  }

  lemma SortKeepsNoDuplicates<T>(s: seq<T>, key: T -> int)
    requires NoDuplicates(s)
    ensures NoDuplicates(SortBy(s, key))
  {
    CountsMeanNoDuplicates(s);
    SortPermutes(s, key);
    CountsMeanNoDuplicates(SortBy(s, key));
  }

  /** The elements with key `k`, in their order. */
  function WithKey<T>(s: seq<T>, key: T -> int, k: int): seq<T> {
    if s == [] then []
    else (if key(s[0]) == k then [s[0]] else []) + WithKey(s[1..], key, k)
  }

  lemma WithKeyCons<T>(x: T, s: seq<T>, key: T -> int, k: int)
    ensures WithKey([x] + s, key, k) == (if key(x) == k then [x] else []) + WithKey(s, key, k)
  {
    assert ([x] + s)[1..] == s;
  }

  lemma {:induction false} InsertIsStable<T>(x: T, s: seq<T>, key: T -> int, k: int)
    ensures WithKey(Insert(x, s, key), key, k) == (if key(x) == k then [x] else []) + WithKey(s, key, k)
  {
    if s == [] || key(x) <= key(s[0]) {
      WithKeyCons(x, s, key, k);
    } else {
      InsertIsStable(x, s[1..], key, k);
      var rest := Insert(x, s[1..], key);
      assert Insert(x, s, key) == [s[0]] + rest && s == [s[0]] + s[1..];
      hide *;
      WithKeyCons(s[0], rest, key, k);
      WithKeyCons(s[0], s[1..], key, k);
    }
  }

  /** Elements with equal keys keep their relative order. */
  lemma {:induction false} SortIsStable<T>(s: seq<T>, key: T -> int, k: int)
    ensures WithKey(SortBy(s, key), key, k) == WithKey(s, key, k)
  {
    if s != [] {
      InsertIsStable(s[0], SortBy(s[1..], key), key, k);
      SortIsStable(s[1..], key, k);
    }
  }

  /** Somewhere in the list `x` stands in front of `y`. */
  ghost predicate Precedes<T>(s: seq<T>, x: T, y: T) {
    exists i, j :: 0 <= i < j < |s| && s[i] == x && s[j] == y
  }

  lemma PrecedesFromFront<T>(s: seq<T>, x: T, y: T)
    requires s != []
    ensures Precedes(s, x, y) <==> Precedes(s[1..], x, y) || (s[0] == x && y in s[1..])
  {
    var rest := s[1..];
    if i, j :| 0 <= i < j < |s| && s[i] == x && s[j] == y {
      assert rest[j - 1] == y && (i > 0 ==> rest[i - 1] == x);
    }
    if i, j :| 0 <= i < j < |rest| && rest[i] == x && rest[j] == y {
      assert s[i + 1] == x && s[j + 1] == y;
    }
    if s[0] == x && y in rest {
      var j :| 0 <= j < |rest| && rest[j] == y;
      assert s[j + 1] == y;
    }
  }

  lemma {:induction false} WithKeyPrecedes<T>(s: seq<T>, key: T -> int, x: T, y: T)
    requires key(x) == key(y)
    ensures x in WithKey(s, key, key(x)) <==> x in s
    ensures y in WithKey(s, key, key(x)) <==> y in s
    ensures Precedes(WithKey(s, key, key(x)), x, y) <==> Precedes(s, x, y)
  {
    if s != [] {
      var rest := WithKey(s[1..], key, key(x));
      assert s == [s[0]] + s[1..];
      WithKeyPrecedes(s[1..], key, x, y);
      PrecedesFromFront(s, x, y);
      if key(s[0]) == key(x) {
        PrecedesFromFront([s[0]] + rest, x, y);
        assert ([s[0]] + rest)[1..] == rest;
      } else {
        assert WithKey(s, key, key(x)) == rest;
      }
    }
  }

  /** Of two elements with equal keys, the sorted list puts that one first which the list put first. */
  lemma TiesStay<T>(s: seq<T>, key: T -> int, x: T, y: T)
    requires key(x) == key(y)
    ensures Precedes(SortBy(s, key), x, y) <==> Precedes(s, x, y)
  {
    SortIsStable(s, key, key(x));
    WithKeyPrecedes(s, key, x, y);
    WithKeyPrecedes(SortBy(s, key), key, x, y);
  }

  lemma TiesComeFrom<T>(s: seq<T>, key: T -> int, k: nat, l: nat) returns (i: nat, j: nat)
    requires k < l < |SortBy(s, key)| && key(SortBy(s, key)[k]) == key(SortBy(s, key)[l])
    ensures i < j < |s| && s[i] == SortBy(s, key)[k] && s[j] == SortBy(s, key)[l]
  {
    var r := SortBy(s, key);
    hide SortBy;
    TiesStay(s, key, r[k], r[l]);
    i, j :| 0 <= i < j < |s| && s[i] == r[k] && s[j] == r[l];
  }

  /** Every element of the sorted list comes from the list, and the other way round. */
  lemma SortedFrom<T>(s: seq<T>, key: T -> int, k: nat) returns (i: nat)
    requires k < |SortBy(s, key)|
    ensures i < |s| && s[i] == SortBy(s, key)[k]
  {
    SortPermutes(s, key);
    var r := SortBy(s, key);
    assert r[k] in multiset(r);
    assert r[k] in multiset(s);
    i :| 0 <= i < |s| && s[i] == SortBy(s, key)[k];
  }

  lemma SortedTo<T>(s: seq<T>, key: T -> int, i: nat) returns (k: nat)
    requires i < |s|
    ensures k < |SortBy(s, key)| && SortBy(s, key)[k] == s[i]
  {
    SortPermutes(s, key);
    assert s[i] in SortBy(s, key);
    k :| 0 <= k < |SortBy(s, key)| && SortBy(s, key)[k] == s[i];
  }

  lemma SameElementSameIndex<T>(s: seq<T>, k: nat, l: nat)
    requires NoDuplicates(s) && k < |s| && l < |s| && s[k] == s[l]
    ensures k == l
  {
  }
}
