/** The disjoint-set forest over message ids that conversation grouping builds in its `parent` map. */
module Forest {
  import opened Graph

  /**
   * A parent map with what it stands for: `rep` is each id's root, `rank` falls along parent links, and `joined`
   * holds every pair of ids united so far.
   */
  datatype View = View(parent: map<string, string>, rep: map<string, string>, rank: map<string, nat>,
                       joined: set<(string, string)>)
  {
    /** What holds at each id: links stay inside the map, fall in rank, and lead to the representative, a root. */
    ghost predicate Rooted(x: string) {
      && x in parent && x in rep && x in rank
      && var p, r := parent[x], rep[x];
      && p in parent && p in rep && p in rank && rep[p] == r
      && (p == x ==> r == x)
      && (p != x ==> rank[p] < rank[x])
      && r in parent && r in rep && parent[r] == r && rep[r] == r
    }

    ghost predicate Represented(x: string) {
      x in rep && Connected(joined, x, rep[x])
    }

    ghost predicate United(a: string, b: string) {
      a in parent && b in parent && a in rep && b in rep && rep[a] == rep[b]
    }

    /** The parent links form an acyclic forest with one root per tree. */
    ghost predicate Acyclic() {
      && "" !in parent
      && (forall x {:trigger Rooted(x)} :: x in parent ==> Rooted(x))
    }

    /** The trees are the sets of ids that `joined` connects. */
    ghost predicate Faithful() {
      && (forall x {:trigger Represented(x)} :: x in parent ==> Represented(x))
      && (forall a, b {:trigger United(a, b)} :: (a, b) in joined ==> United(a, b))
    }

    ghost predicate Good() {
      Acyclic() && Faithful()
    }

    ghost function WithId(x: string): View {
      View(parent[x := x], rep[x := x], rank[x := 0], joined)
    }

    /** The view after the tree of root `ra` is hung below root `rb` because `a` and `b` were united. */
    ghost function WithUnion(a: string, b: string, ra: string, rb: string): View
      requires rb in rank
    {
      if ra == rb then View(parent, rep, rank, joined + {(a, b)}) else
      View(parent[ra := rb],
           map x | x in rep :: if rep[x] == ra then rb else rep[x],
           map x | x in rank :: if x in rep && rep[x] == ra then rank[x] + rank[rb] + 1 else rank[x],
           joined + {(a, b)})
    }
  }

  lemma AddingAnIdIsAcyclic(v: View, x: string)
    requires v.Acyclic() && x !in v.parent && x != ""
    ensures v.WithId(x).Acyclic()
  {
    var w := v.WithId(x);
    forall y | y in w.parent
      ensures w.Rooted(y)
    {
      if y != x {
        assert v.Rooted(y);
      }
    }
  }

  lemma AddingAnIdIsFaithful(v: View, x: string)
    requires v.Faithful() && x !in v.parent
    ensures v.WithId(x).Faithful()
  {
    var w := v.WithId(x);
    forall y | y in w.parent
      ensures w.Represented(y)
    {
      if y == x {
        Reflexive(v.joined, x);
      } else {
        assert v.Represented(y);
      }
    }
    forall a, b | (a, b) in w.joined
      ensures w.United(a, b)
    {
      assert v.United(a, b);
    }
  }

  lemma AddingAnIdIsGood(v: View, x: string)
    requires v.Good() && x !in v.parent && x != ""
    ensures v.WithId(x).Good()
  {
    AddingAnIdIsAcyclic(v, x);
    AddingAnIdIsFaithful(v, x);
  }

  lemma CompressingIsGood(v: View, x: string)
    requires v.Good() && x in v.parent
    requires x in v.rep && x in v.rank && v.rep[x] in v.rank && (v.rep[x] != x ==> v.rank[v.rep[x]] < v.rank[x])
    ensures v.(parent := v.parent[x := v.rep[x]]).Good()
  {
    var w := v.(parent := v.parent[x := v.rep[x]]);
    assert v.Rooted(x);
    forall y | y in w.parent
      ensures w.Rooted(y) && w.Represented(y)
    {
      assert v.Rooted(y) && v.Represented(y);
      assert v.Rooted(v.rep[y]);
    }
    forall a, b | (a, b) in w.joined
      ensures w.United(a, b)
    {
      assert v.United(a, b);
    }
  }

  lemma UnitingIsAcyclic(v: View, a: string, b: string)
    requires v.Acyclic() && a in v.parent && b in v.parent && a in v.rep && b in v.rep && v.rep[b] in v.rank
    ensures v.WithUnion(a, b, v.rep[a], v.rep[b]).Acyclic()
  {
    var ra, rb := v.rep[a], v.rep[b];
    var w := v.WithUnion(a, b, ra, rb);
    assert v.Rooted(a) && v.Rooted(b);
    assert v.Rooted(ra) && v.Rooted(rb);
    forall x | x in w.parent
      ensures w.Rooted(x)
    {
      assert v.Rooted(x);
    }
  }

  lemma UnitingIsFaithful(v: View, a: string, b: string)
    requires v.Faithful() && a in v.parent && b in v.parent
    requires a in v.rep && b in v.rep && v.rep[a] in v.parent && v.rep[b] in v.rank
    ensures v.WithUnion(a, b, v.rep[a], v.rep[b]).Faithful()
  {
    var w := v.WithUnion(a, b, v.rep[a], v.rep[b]);
    assert v.Represented(a) && v.Represented(b);
    forall x | x in w.parent
      ensures w.Represented(x)
    {
      assert v.Represented(x);
      UnionRepresents(v, a, b, x);
    }
    forall c, d | (c, d) in w.joined
      ensures w.United(c, d)
    {
      if (c, d) in v.joined {
        assert v.United(c, d);
      }
    }
  }

  lemma UnitingIsGood(v: View, a: string, b: string)
    requires v.Good() && a in v.parent && b in v.parent
    requires a in v.rep && b in v.rep && v.rep[b] in v.rank
    ensures v.WithUnion(a, b, v.rep[a], v.rep[b]).Good()
  {
    assert v.Rooted(a);
    UnitingIsAcyclic(v, a, b);
    UnitingIsFaithful(v, a, b);
  }

  /** After uniting `a` and `b`, `x` reaches its old representative, and b's when that was a's. */
  lemma UnionRepresents(v: View, a: string, b: string, x: string)
    requires v.Represented(a) && v.Represented(b) && v.Represented(x)
    ensures Connected(v.joined + {(a, b)}, x, v.rep[x])
    ensures v.rep[x] == v.rep[a] ==> Connected(v.joined + {(a, b)}, x, v.rep[b])
  {
    var more := v.joined + {(a, b)};
    Monotone(v.joined, more, x, v.rep[x]);
    if v.rep[x] == v.rep[a] {
      Monotone(v.joined, more, a, v.rep[a]);
      Monotone(v.joined, more, b, v.rep[b]);
      Symmetric(more, a, v.rep[a]);
      Step(more, a, b);
      Transitive(more, x, v.rep[a], a);
      Transitive(more, x, a, b);
      Transitive(more, x, b, v.rep[b]);
    }
  }

  /** A good forest decides reachability: equal representatives if and only if connected. */
  lemma SameRootIffConnected(v: View, a: string, b: string)
    requires v.Good() && a in v.parent && b in v.parent
    ensures a in v.rep && b in v.rep && (v.rep[a] == v.rep[b] <==> Connected(v.joined, a, b))
  {
    assert v.Represented(a) && v.Represented(b);
    if v.rep[a] == v.rep[b] {
      Symmetric(v.joined, b, v.rep[b]);
      Transitive(v.joined, a, v.rep[a], b);
    }
    if Connected(v.joined, a, b) {
      var tree := iset x | x in v.rep && v.rep[x] == v.rep[a];
      forall c, d | Adjacent(v.joined, c, d) && c in tree
        ensures d in tree
      {
        if (c, d) in v.joined {
          assert v.United(c, d);
        } else {
          assert v.United(d, c);
        }
      }
      ClosedContains(v.joined, tree, a, b);
    }
  }

  /** The mutable map the grouping code updates; the ghost fields complete it to a view. */
  class IdForest {
    var parent: map<string, string>
    ghost var rep: map<string, string>
    ghost var rank: map<string, nat>
    ghost var joined: set<(string, string)>

    ghost function Now(): View
      reads this
    {
      View(parent, rep, rank, joined)
    }

    ghost predicate Valid()
      reads this
    {
      Now().Good()
    }

    constructor ()
      ensures Valid() && parent == map[] && joined == {}
    {
      parent, rep, rank, joined := map[], map[], map[], {};
    }

    /** Adds `x` as a set of its own unless it is already known. */
    method Touch(x: string)
      requires Valid() && x != ""
      modifies this
      ensures Valid() && joined == old(joined)
      ensures x in old(parent) ==> parent == old(parent) && rep == old(rep)
      ensures x !in old(parent) ==> parent == old(parent)[x := x] && rep == old(rep)[x := x]
    {
      if x !in parent {
        AddingAnIdIsGood(Now(), x);
        parent, rep, rank := parent[x := x], rep[x := x], rank[x := 0];
      }
    }

    /** The root of `x`; the path is then shortened to one step. */
    method Find(x: string) returns (r: string)
      requires Valid() && x in parent
      modifies this
      ensures Valid() && joined == old(joined) && rep == old(rep) && parent.Keys == old(parent.Keys)
      ensures x in rep && r == rep[x] && r in parent && parent[r] == r
    {
      r := x;
      assert Now().Rooted(x);
      while parent[r] != r
        invariant r in parent && r in rep && r in rank && rep[r] == rep[x]
        invariant r != x ==> rank[r] < rank[x]
        decreases rank[r]
      {
        assert Now().Rooted(r);
        r := parent[r];
      }
      assert Now().Rooted(r);
      CompressingIsGood(Now(), x);
      parent := parent[x := r];
      assert Now().Rooted(x);
    }

    /** Makes the sets of `a` and `b` one. */
    method Union(a: string, b: string)
      requires Valid() && a in parent && b in parent
      modifies this
      ensures Valid() && joined == old(joined) + {(a, b)} && parent.Keys == old(parent.Keys)
    {
      var ra := Find(a);
      var rb := Find(b);
      assert Now().Rooted(a) && Now().Rooted(b) && Now().Rooted(rb);
      UnitingIsGood(Now(), a, b);
      ghost var next := Now().WithUnion(a, b, ra, rb);
      if ra != rb {
        parent := parent[ra := rb];
      }
      rep, rank, joined := next.rep, next.rank, next.joined;
    }
  }
}
