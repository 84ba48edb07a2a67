/**
  Navigation in the region tree. A node is identified by the path of child
  names that leads to it from the root, which is how the profiler's stack
  refers to the nodes it holds (the source holds object references).
 */
module Tree {
  import opened Wrappers
  import opened Node

  type Path = seq<string>

  /** The node reached by following `p` from `n`, if every step exists. */
  function At(n: RegionNode, p: Path): Option<RegionNode>
    decreases |p|
  {
    if p == [] then Some(n)
    else match IndexOf(n.children, p[0])
      case None => None
      case Some(i) => At(n.children[i], p[1..])
  }

  predicate Exists(n: RegionNode, p: Path) {
    At(n, p).Some?
  }

  /** `n` with the node at `p` replaced by `m`. */
  function Put(n: RegionNode, p: Path, m: RegionNode): (r: RegionNode)
    requires Exists(n, p) && m.name == At(n, p).value.name
    ensures At(r, p) == Some(m)
    ensures r.name == n.name
    decreases |p|
  {
    if p == [] then m
    else
      var i := IndexOf(n.children, p[0]).value;
      var sub := Put(n.children[i], p[1..], m);
      var r := n.(children := n.children[i := sub]);
      assert IndexOf(r.children, p[0]) == Some(i) by { IndexOfSameNames(n.children, r.children, p[0]); }
      r
  }

  /** A second replacement at the same path overrides the first. */
  lemma {:induction false} PutPut(n: RegionNode, p: Path, a: RegionNode, b: RegionNode)
    requires Exists(n, p) && a.name == At(n, p).value.name && b.name == a.name
    ensures Put(Put(n, p, a), p, b) == Put(n, p, b)
    decreases |p|
  {
    if p != [] {
      var i := IndexOf(n.children, p[0]).value;
      var r := Put(n, p, a);
      assert r.children == n.children[i := Put(n.children[i], p[1..], a)];
      IndexOfSameNames(n.children, r.children, p[0]);
      PutPut(n.children[i], p[1..], a, b);
    }
  }

  /** Every path of `a` is a path of `b`: the tree only grew. */
  ghost predicate Covers(a: RegionNode, b: RegionNode) {
    forall q :: Exists(a, q) ==> Exists(b, q)
  }

  /** Lookups by name agree on two child lists with the same names. */
  lemma {:induction false} IndexOfSameNames(xs: seq<RegionNode>, ys: seq<RegionNode>, name: string)
    requires |xs| == |ys|
    requires forall i :: 0 <= i < |xs| ==> xs[i].name == ys[i].name
    ensures IndexOf(xs, name) == IndexOf(ys, name)
  {
    if xs != [] {
      IndexOfSameNames(xs[1..], ys[1..], name);
    }
  }

  /** Following `p` then `q` is following `p + q`. */
  lemma {:induction false} AtConcat(n: RegionNode, p: Path, q: Path)
    requires Exists(n, p)
    ensures At(n, p + q) == At(At(n, p).value, q)
    decreases |p|
  {
    if p != [] {
      var i := IndexOf(n.children, p[0]).value;
      assert (p + q)[0] == p[0];
      assert (p + q)[1..] == p[1..] + q;
      assert At(n, p + q) == At(n.children[i], p[1..] + q);
      assert At(n, p) == At(n.children[i], p[1..]);
      AtConcat(n.children[i], p[1..], q);
    } else {
      assert p + q == q;
    }
  }

  /** A node with the same children has the same paths. */
  lemma SameChildrenCovers(a: RegionNode, b: RegionNode)
    requires a.children == b.children
    ensures Covers(a, b)
  {
    forall q | Exists(a, q)
      ensures Exists(b, q)
    {
      if q != [] {
        assert At(b, q) == At(a, q);
      }
    }
  }

  /** Appending a child keeps every path. */
  lemma AppendChildCovers(a: RegionNode, c: RegionNode)
    ensures Covers(a, a.(children := a.children + [c]))
  {
    var b := a.(children := a.children + [c]);
    forall q | Exists(a, q)
      ensures Exists(b, q)
    {
      if q != [] {
        IndexOfAppend(a.children, c, q[0]);
        var i := IndexOf(a.children, q[0]).value;
        assert b.children[i] == a.children[i];
      }
    }
  }

  /**
    Replacing a node by one that keeps all of its paths keeps every path of
    the whole tree.
   */
  lemma {:induction false} PutCovers(n: RegionNode, p: Path, m: RegionNode)
    requires Exists(n, p) && m.name == At(n, p).value.name
    requires Covers(At(n, p).value, m)
    ensures Covers(n, Put(n, p, m))
    decreases |p|
  {
    if p != [] {
      var i := IndexOf(n.children, p[0]).value;
      var sub := Put(n.children[i], p[1..], m);
      PutCovers(n.children[i], p[1..], m);
      var r := Put(n, p, m);
      assert r == n.(children := n.children[i := sub]);
      forall q | Exists(n, q)
        ensures Exists(r, q)
      {
        if q != [] {
          IndexOfSameNames(n.children, r.children, q[0]);
          var j := IndexOf(n.children, q[0]).value;
          if j == i {
            assert Exists(n.children[i], q[1..]);
          } else {
            assert r.children[j] == n.children[j];
          }
        }
      }
    }
  }

  /** Replacing a node by one with the same children keeps every path. */
  lemma PutSameChildrenCovers(n: RegionNode, p: Path, m: RegionNode)
    requires Exists(n, p) && m.name == At(n, p).value.name
    requires At(n, p).value.children == m.children
    ensures Covers(n, Put(n, p, m))
  {
    SameChildrenCovers(At(n, p).value, m);
    PutCovers(n, p, m);
  }
  /** `q` is `p` or lies below it: `p` is a prefix of `q`. */
  predicate Below(p: Path, q: Path) {
    |p| <= |q| && q[..|p|] == p
  }

  /** Two paths below the same first step are related as their tails are. */
  lemma BelowTail(p: Path, q: Path)
    requires p != [] && q != [] && p[0] == q[0]
    ensures Below(p, q) <==> Below(p[1..], q[1..])
  {
    if Below(p[1..], q[1..]) {
      assert q[..|p|] == [q[0]] + q[1..][..|p| - 1];
      assert p == [p[0]] + p[1..];
    }
    if Below(p, q) {
      assert q[1..][..|p| - 1] == q[..|p|][1..];
    }
  }

  /**
    Replacing the node at `p` leaves every node that is neither on the way
    to `p` nor below it exactly as it was.
   */
  lemma {:induction false} PutFrame(n: RegionNode, p: Path, m: RegionNode, q: Path)
    requires Exists(n, p) && m.name == At(n, p).value.name
    requires !Below(p, q) && !Below(q, p)
    ensures At(Put(n, p, m), q) == At(n, q)
    decreases |p|
  {
    assert p != [] && q != [];
    var i := IndexOf(n.children, p[0]).value;
    var r := Put(n, p, m);
    assert r.children == n.children[i := Put(n.children[i], p[1..], m)];
    IndexOfSameNames(n.children, r.children, q[0]);
    match IndexOf(n.children, q[0])
    case None =>
    case Some(j) =>
      if j == i {
        BelowTail(p, q);
        BelowTail(q, p);
        PutFrame(n.children[i], p[1..], m, q[1..]);
      } else {
        assert r.children[j] == n.children[j];
      }
  }

  /**
    Replacing the node at `p` changes the nodes on the way to it only in
    their children.
   */
  lemma {:induction false} PutAncestors(n: RegionNode, p: Path, m: RegionNode, q: Path)
    requires Exists(n, p) && m.name == At(n, p).value.name
    requires Below(q, p) && |q| < |p|
    ensures Exists(n, q) && Exists(Put(n, p, m), q)
    ensures At(Put(n, p, m), q).value == At(n, q).value.(children := At(Put(n, p, m), q).value.children)
    decreases |p|
  {
    var i := IndexOf(n.children, p[0]).value;
    var r := Put(n, p, m);
    assert r.children == n.children[i := Put(n.children[i], p[1..], m)];
    if q != [] {
      assert q[0] == p[0];
      IndexOfSameNames(n.children, r.children, q[0]);
      BelowTail(q, p);
      PutAncestors(n.children[i], p[1..], m, q[1..]);
    }
  }

  /** Below `p`, the replaced tree is the new node's subtree. */
  lemma PutBelow(n: RegionNode, p: Path, m: RegionNode, q: Path)
    requires Exists(n, p) && m.name == At(n, p).value.name
    ensures At(Put(n, p, m), p + q) == At(m, q)
  {
    AtConcat(Put(n, p, m), p, q);
  }
}
