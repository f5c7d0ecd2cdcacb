/** Undirected reachability over a finite set of links. */
module Graph {

  predicate Adjacent<T(==)>(links: set<(T, T)>, a: T, b: T) {
    (a, b) in links || (b, a) in links
  }

  /** From `a`, visiting the nodes of `p` in order leads to `b`, one link (in either direction) at a time. */
  ghost predicate IsPath<T>(links: set<(T, T)>, a: T, p: seq<T>, b: T) {
    if p == [] then a == b else Adjacent(links, a, p[0]) && IsPath(links, p[0], p[1..], b)
  }

  ghost predicate Connected<T(!new)>(links: set<(T, T)>, a: T, b: T) {
    exists p: seq<T> :: IsPath(links, a, p, b)
  }

  lemma Reflexive<T(!new)>(links: set<(T, T)>, a: T)
    ensures Connected(links, a, a)
  {
    assert IsPath(links, a, [], a);
  }

  lemma Step<T(!new)>(links: set<(T, T)>, a: T, b: T)
    requires Adjacent(links, a, b)
    ensures Connected(links, a, b)
  {
    assert IsPath(links, b, [], b);
    assert IsPath(links, a, [b], b);
  }

  lemma {:induction false} Append<T>(links: set<(T, T)>, a: T, p: seq<T>, b: T, q: seq<T>, c: T)
    requires IsPath(links, a, p, b) && IsPath(links, b, q, c)
    ensures IsPath(links, a, p + q, c)
    decreases |p|
  {
    if p == [] {
      assert p + q == q;
    } else {
      Append(links, p[0], p[1..], b, q, c);
      assert (p + q)[1..] == p[1..] + q;
    }
  }

  lemma Transitive<T(!new)>(links: set<(T, T)>, a: T, b: T, c: T)
    requires Connected(links, a, b) && Connected(links, b, c)
    ensures Connected(links, a, c)
  {
    var p: seq<T> :| IsPath(links, a, p, b);
    var q: seq<T> :| IsPath(links, b, q, c);
    Append(links, a, p, b, q, c);
  }

  lemma {:induction false} PathBack<T(!new)>(links: set<(T, T)>, a: T, p: seq<T>, b: T)
    requires IsPath(links, a, p, b)
    ensures Connected(links, b, a)
    decreases |p|
  {
    if p == [] {
      Reflexive(links, a);
    } else {
      PathBack(links, p[0], p[1..], b);
      Step(links, p[0], a);
      Transitive(links, b, p[0], a);
    }
  }

  lemma Symmetric<T(!new)>(links: set<(T, T)>, a: T, b: T)
    requires Connected(links, a, b)
    ensures Connected(links, b, a)
  {
    var p: seq<T> :| IsPath(links, a, p, b);
    PathBack(links, a, p, b);
  }

  lemma {:induction false} PathMonotone<T>(links: set<(T, T)>, more: set<(T, T)>, a: T, p: seq<T>, b: T)
    requires links <= more && IsPath(links, a, p, b)
    ensures IsPath(more, a, p, b)
    decreases |p|
  {
    if p != [] {
      PathMonotone(links, more, p[0], p[1..], b);
    }
  }

  lemma Monotone<T(!new)>(links: set<(T, T)>, more: set<(T, T)>, a: T, b: T)
    requires links <= more
    requires Connected(links, a, b)
    ensures Connected(more, a, b)
  {
    var p: seq<T> :| IsPath(links, a, p, b);
    PathMonotone(links, more, a, p, b);
  }

  lemma UnlinkedIsAlone<T(!new)>(links: set<(T, T)>, a: T, b: T)
    requires Connected(links, a, b) && forall x :: !Adjacent(links, a, x)
    ensures a == b
  {
    ClosedContains(links, iset{a}, a, b);
  }

  /** A set of nodes that no link leaves. */
  ghost predicate Closed<T(!new)>(links: set<(T, T)>, nodes: iset<T>) {
    forall a, b :: Adjacent(links, a, b) && a in nodes ==> b in nodes
  }

  lemma {:induction false} PathStaysInside<T(!new)>(links: set<(T, T)>, nodes: iset<T>, a: T, p: seq<T>, b: T)
    requires Closed(links, nodes) && a in nodes && IsPath(links, a, p, b)
    ensures b in nodes
    decreases |p|
  {
    if p != [] {
      PathStaysInside(links, nodes, p[0], p[1..], b);
    }
  }

  /** Induction over paths: what is connected to a member of a closed set is in the set. */
  lemma ClosedContains<T(!new)>(links: set<(T, T)>, nodes: iset<T>, a: T, b: T)
    requires Closed(links, nodes) && a in nodes && Connected(links, a, b)
    ensures b in nodes
  {
    var p: seq<T> :| IsPath(links, a, p, b);
    PathStaysInside(links, nodes, a, p, b);
  }

  /** Links whose ends another link set connects add nothing to what that link set connects. */
  lemma Simulates<T(!new)>(links: set<(T, T)>, other: set<(T, T)>, a: T, b: T)
    requires forall x, y :: (x, y) in links ==> Connected(other, x, y)
    requires Connected(links, a, b)
    ensures Connected(other, a, b)
  {
    var nodes := iset x: T | Connected(other, a, x);
    forall x, y | Adjacent(links, x, y) && x in nodes
      ensures y in nodes
    {
      if (x, y) !in links {
        Symmetric(other, y, x);
      }
      Transitive(other, a, x, y);
    }
    Reflexive(other, a);
    ClosedContains(links, nodes, a, b);
  }
}
