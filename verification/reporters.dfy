/**
  The profiler slice of region_profiler/reporters.py: the region tree
  flattened, depth first, into a list of `Slice` records that reporters
  render. Siblings are listed by decreasing total time.
 */
module Reporters {
  import opened Wrappers
  import opened Utils
  import opened Node

  // ---------------------------------------------------------------------------
  // Slice
  // ---------------------------------------------------------------------------

  /**
    One entry of the slice. `parent` is the id of the parent's slice (the
    source links the parent object; ids are list positions, see `NodeSlice`).
   */
  datatype Slice = Slice(
    id: nat,
    name: string,
    parent: Option<nat>,
    callDepth: nat,
    count: nat,
    totalTime: int,
    totalInnerTime: int,
    avgTime: real,
    minTime: int,
    maxTime: int)

  /** `Slice.__init__`: the fields as given, and the average of `count` samples summing to `totalTime`. */
  function NewSlice(id: nat, name: string, parent: Option<nat>, callDepth: nat, count: nat,
                    totalTime: int, totalInnerTime: int, minTime: int, maxTime: int): (r: Slice)
    ensures count == 0 ==> r.avgTime == 0.0
    ensures count > 0 ==> r.avgTime * (count as real) == totalTime as real
    ensures r.(avgTime := 0.0)
              == Slice(id, name, parent, callDepth, count, totalTime, totalInnerTime, 0.0, minTime, maxTime)
  {
    Slice(id, name, parent, callDepth, count, totalTime, totalInnerTime,
          Avg(SeqStats(count, totalTime, minTime, maxTime)), minTime, maxTime)
  }

  // ---------------------------------------------------------------------------
  // Sibling order: `sorted(children, key=lambda n: -n.stats.total)`
  // ---------------------------------------------------------------------------

  /** No node is followed by one with a greater total. */
  predicate Descending(xs: seq<RegionNode>) {
    forall i, j :: 0 <= i < j < |xs| ==> xs[i].stats.total >= xs[j].stats.total
  }

  /** The nodes of `xs` whose total is `v`, in their order in `xs`. */
  function WithTotal(xs: seq<RegionNode>, v: int): (r: seq<RegionNode>)
    ensures |r| <= |xs|
  {
    if xs == [] then []
    else (if xs[0].stats.total == v then [xs[0]] else []) + WithTotal(xs[1..], v)
  }

  /** Insert `x` before the first node whose total is not greater than its own. */
  function Insert(x: RegionNode, s: seq<RegionNode>): (r: seq<RegionNode>)
    ensures |r| == |s| + 1
  {
    if s == [] || x.stats.total >= s[0].stats.total then [x] + s
    else [s[0]] + Insert(x, s[1..])
  }

  /** Inserting into a descending list keeps it descending; every node of the result is `x` or from the list. */
  lemma {:induction false} InsertSorted(x: RegionNode, s: seq<RegionNode>)
    requires Descending(s)
    ensures Descending(Insert(x, s))
    ensures forall k :: 0 <= k < |s| + 1 ==> Insert(x, s)[k] == x || Insert(x, s)[k] in s
  {
    if s != [] && x.stats.total < s[0].stats.total {
      InsertSorted(x, s[1..]);
      assert s == [s[0]] + s[1..];
    }
  }

  /** Inserting adds `x` and keeps every other node. */
  lemma {:induction false} InsertPermutes(x: RegionNode, s: seq<RegionNode>)
    ensures multiset(Insert(x, s)) == multiset(s) + multiset{x}
  {
    if s != [] && x.stats.total < s[0].stats.total {
      assert s == [s[0]] + s[1..];
      InsertPermutes(x, s[1..]);
    }
  }

  /**
    Python's `sorted` on the key `-total`: a stable sort, so nodes with
    equal totals keep their insertion order (see `SortDescending`,
    `SortPermutes` and `SortStable`).
   */
  function SortByTotal(xs: seq<RegionNode>): (r: seq<RegionNode>)
    ensures |r| == |xs|
  {
    if xs == [] then [] else Insert(xs[0], SortByTotal(xs[1..]))
  }

  /** The sorted siblings never increase in total. */
  lemma {:induction false} SortDescending(xs: seq<RegionNode>)
    ensures Descending(SortByTotal(xs))
  {
    if xs != [] {
      SortDescending(xs[1..]);
      InsertSorted(xs[0], SortByTotal(xs[1..]));
    }
  }

  /** The sorted siblings are the siblings, each as often as before. */
  lemma {:induction false} SortPermutes(xs: seq<RegionNode>)
    ensures multiset(SortByTotal(xs)) == multiset(xs)
  {
    if xs != [] {
      SortPermutes(xs[1..]);
      InsertPermutes(xs[0], SortByTotal(xs[1..]));
      assert xs == [xs[0]] + xs[1..];
    }
  }

  /** Every sorted sibling is a child of the node. */
  lemma SortMembers(n: RegionNode)
    ensures forall k | k in SortByTotal(n.children) :: k in n.children
  {
    SortPermutes(n.children);
    assert forall k | k in SortByTotal(n.children) :: k in multiset(SortByTotal(n.children));
  }

  lemma WithTotalSingle(y: RegionNode, v: int)
    ensures WithTotal([y], v) == if y.stats.total == v then [y] else []
  {
    assert [y][1..] == [];
  }

  lemma {:induction false} WithTotalConcat(a: seq<RegionNode>, b: seq<RegionNode>, v: int)
    ensures WithTotal(a + b, v) == WithTotal(a, v) + WithTotal(b, v)
  {
    if a == [] {
      assert a + b == b;
    } else {
      var ab := a + b;
      assert ab[0] == a[0];
      assert ab[1..] == a[1..] + b;
      var first := if a[0].stats.total == v then [a[0]] else [];
      assert WithTotal(ab, v) == first + WithTotal(a[1..] + b, v);
      WithTotalConcat(a[1..], b, v);
      assert WithTotal(a, v) == first + WithTotal(a[1..], v);
    }
  }

  /** Inserting keeps every group of equal totals in order, `x` first among its own. */
  lemma {:induction false} InsertStable(x: RegionNode, s: seq<RegionNode>, v: int)
    ensures WithTotal(Insert(x, s), v) == WithTotal([x] + s, v)
  {
    if s != [] && x.stats.total < s[0].stats.total {
      var head, tail := s[0], s[1..];
      var rest := Insert(x, tail);
      var h, y, t := WithTotal([head], v), WithTotal([x], v), WithTotal(tail, v);
      assert WithTotal(Insert(x, s), v) == h + WithTotal(rest, v) by {
        assert Insert(x, s) == [head] + rest;
        WithTotalConcat([head], rest, v);
      }
      assert WithTotal(rest, v) == y + t by {
        InsertStable(x, tail, v);
        WithTotalConcat([x], tail, v);
      }
      assert WithTotal([x] + s, v) == y + (h + t) by {
        assert s == [head] + tail;
        WithTotalConcat([x], s, v);
        WithTotalConcat([head], tail, v);
      }
      assert h == [] || y == [] by {
        WithTotalSingle(head, v);
        WithTotalSingle(x, v);
      }
    }
  }

  /**
    The sort is stable: for every total, the nodes with that total appear
    in the sorted list exactly as they do among the children.
   */
  lemma {:induction false} SortStable(xs: seq<RegionNode>, v: int)
    ensures WithTotal(SortByTotal(xs), v) == WithTotal(xs, v)
  {
    if xs != [] {
      var head, tail := xs[0], xs[1..];
      assert xs == [head] + tail;
      var sortedTail := SortByTotal(tail);
      assert SortByTotal(xs) == Insert(head, sortedTail);
      SortStable(tail, v);
      InsertStable(head, sortedTail, v);
      WithTotalConcat([head], sortedTail, v);
      WithTotalConcat([head], tail, v);
    }
  }

  // ---------------------------------------------------------------------------
  // Tree sizes and sibling totals
  // ---------------------------------------------------------------------------

  /** The number of nodes in the tree under `n`, `n` included. */
  function Size(n: RegionNode): nat
    decreases n
  {
    1 + SizeAll(n.children)
  }

  /** The number of nodes in the trees of a list of siblings. */
  function SizeAll(ks: seq<RegionNode>): nat
    decreases ks
  {
    if ks == [] then 0 else Size(ks[0]) + SizeAll(ks[1..])
  }

  /** The sum of the siblings' totals: `child_total` once the loop is done. */
  function TotalOf(ks: seq<RegionNode>): int
  {
    if ks == [] then 0 else ks[0].stats.total + TotalOf(ks[1..])
  }

  lemma {:induction false} InsertSizeTotal(x: RegionNode, s: seq<RegionNode>)
    ensures SizeAll(Insert(x, s)) == Size(x) + SizeAll(s)
    ensures TotalOf(Insert(x, s)) == x.stats.total + TotalOf(s)
  {
    if s != [] && x.stats.total < s[0].stats.total {
      InsertSizeTotal(x, s[1..]);
      assert Insert(x, s)[1..] == Insert(x, s[1..]);
    }
  }

  /** Sorting the siblings changes neither how many nodes they hold nor their total time. */
  lemma {:induction false} SortSizeTotal(xs: seq<RegionNode>)
    ensures SizeAll(SortByTotal(xs)) == SizeAll(xs)
    ensures TotalOf(SortByTotal(xs)) == TotalOf(xs)
  {
    if xs != [] {
      SortSizeTotal(xs[1..]);
      InsertSizeTotal(xs[0], SortByTotal(xs[1..]));
    }
  }

  // ---------------------------------------------------------------------------
  // get_node_slice / get_profiler_slice
  // ---------------------------------------------------------------------------

  /**
    `get_node_slice(slices, node, parent_slice, call_depth)` with `slices`
    already holding `id` entries: the entries it appends. The node's own
    slice comes first, then those of its children by decreasing total; its
    inner time is its total less the children's, but never below 0.
   */
  function NodeSlice(n: RegionNode, id: nat, parent: Option<nat>, depth: nat): (r: seq<Slice>)
    ensures |r| >= 1
    decreases n, 1
  {
    var kids := SortByTotal(n.children);
    SortMembers(n);
    [NewSlice(id, n.name, parent, depth, n.stats.count, n.stats.total,
              Max(n.stats.total - TotalOf(kids), 0), n.stats.min, n.stats.max)]
      + KidsSlices(n, kids, id + 1, id, depth + 1)
  }

  /** The loop of `get_node_slice` over the sorted children `ks` of `owner`, from slice id `start`. */
  function KidsSlices(owner: RegionNode, ks: seq<RegionNode>, start: nat, parentId: nat, depth: nat): (r: seq<Slice>)
    requires forall k | k in ks :: k in owner.children
    ensures |r| >= |ks|
    decreases owner, 0, |ks|
  {
    if ks == [] then []
    else
      assert ks[0] in owner.children;
      var first := NodeSlice(ks[0], start, Some(parentId), depth);
      first + KidsSlices(owner, ks[1..], start + |first|, parentId, depth)
  }

  /** `get_profiler_slice`: the slice of the whole tree from its root, at depth 0 with no parent. */
  function ProfilerSlice(root: RegionNode): (r: seq<Slice>)
    ensures |r| >= 1 && r[0].id == 0 && r[0].parent == None && r[0].callDepth == 0 && r[0].name == root.name
  {
    NodeSlice(root, 0, None, 0)
  }

  /**
    `get_profiler_slice` as a whole: one slice per node of the tree, each
    numbered by its position, the root first with no parent, every other
    slice one level below an earlier slice, and no negative inner time.
   */
  lemma ProfilerSliceShape(root: RegionNode)
    ensures |ProfilerSlice(root)| == Size(root)
    ensures forall i :: 0 <= i < |ProfilerSlice(root)| ==> ProfilerSlice(root)[i].id == i
    ensures forall i :: 1 <= i < |ProfilerSlice(root)| ==> LinkedInside(ProfilerSlice(root), 0, i)
    ensures forall i :: 0 <= i < |ProfilerSlice(root)| ==> ProfilerSlice(root)[i].totalInnerTime >= 0
  {
    NodeSliceIds(root, 0, None, 0);
    NodeSliceLinks(root, 0, None, 0);
    NodeSliceInnerNonNegative(root, 0, None, 0);
  }

  // ---------------------------------------------------------------------------
  // Properties of the slice
  // ---------------------------------------------------------------------------

  /**
    One slice per node of the tree, and each slice's id is its position:
    the entries appended after `id` earlier ones are numbered from `id`.
   */
  lemma {:induction false} NodeSliceIds(n: RegionNode, id: nat, parent: Option<nat>, depth: nat)
    ensures |NodeSlice(n, id, parent, depth)| == Size(n)
    ensures forall i :: 0 <= i < |NodeSlice(n, id, parent, depth)| ==> NodeSlice(n, id, parent, depth)[i].id == id + i
    decreases n, 1
  {
    var kids := SortByTotal(n.children);
    SortMembers(n);
    KidsSliceIds(n, kids, id + 1, id, depth + 1);
    SortSizeTotal(n.children);
  }

  lemma {:induction false} KidsSliceIds(owner: RegionNode, ks: seq<RegionNode>, start: nat, parentId: nat, depth: nat)
    requires forall k | k in ks :: k in owner.children
    ensures |KidsSlices(owner, ks, start, parentId, depth)| == SizeAll(ks)
    ensures forall i :: 0 <= i < |KidsSlices(owner, ks, start, parentId, depth)| ==>
              KidsSlices(owner, ks, start, parentId, depth)[i].id == start + i
    decreases owner, 0, |ks|
  {
    if ks != [] {
      assert ks[0] in owner.children;
      var first := NodeSlice(ks[0], start, Some(parentId), depth);
      NodeSliceIds(ks[0], start, Some(parentId), depth);
      KidsSliceIds(owner, ks[1..], start + |first|, parentId, depth);
    }
  }

  /**
    Slice `i` of `r` with ids from `first` hangs from an earlier slice of
    `r`, one level below it.
   */
  predicate LinkedInside(r: seq<Slice>, first: nat, i: nat)
    requires i < |r|
  {
    && r[i].parent.Some? && first <= r[i].parent.value < first + i
    && r[i].callDepth == r[r[i].parent.value - first].callDepth + 1
  }

  /**
    Every slice after the first names as its parent an earlier slice of
    the same node's list, and lies one level deeper than it; the first has
    the parent and depth it was called with.
   */
  lemma {:induction false} NodeSliceLinks(n: RegionNode, id: nat, parent: Option<nat>, depth: nat)
    ensures NodeSlice(n, id, parent, depth)[0].parent == parent
    ensures NodeSlice(n, id, parent, depth)[0].callDepth == depth
    ensures forall i :: 1 <= i < |NodeSlice(n, id, parent, depth)| ==> LinkedInside(NodeSlice(n, id, parent, depth), id, i)
    decreases n, 1
  {
    var kids := SortByTotal(n.children);
    SortMembers(n);
    KidsSliceLinks(n, kids, id + 1, id, depth + 1);
    var r := NodeSlice(n, id, parent, depth);
    var rk := KidsSlices(n, kids, id + 1, id, depth + 1);
    assert r == [r[0]] + rk;
    forall i | 1 <= i < |r|
      ensures LinkedInside(r, id, i)
    {
      assert r[i] == rk[i - 1];
      assert LinkedWithin(rk, id + 1, i - 1, id, depth + 1);
      if LinkedInside(rk, id + 1, i - 1) {
        var p := rk[i - 1].parent.value;
        assert r[p - id] == rk[p - id - 1];
      }
    }
  }

  /**
    Slice `i` of `r` with ids from `first` hangs either from the slice
    `parentId` outside `r`, at `depth`, or from an earlier slice of `r`.
   */
  predicate LinkedWithin(r: seq<Slice>, first: nat, i: nat, parentId: nat, depth: nat)
    requires i < |r|
  {
    (r[i].parent == Some(parentId) && r[i].callDepth == depth) || LinkedInside(r, first, i)
  }

  lemma {:induction false} KidsSliceLinks(owner: RegionNode, ks: seq<RegionNode>, start: nat, parentId: nat, depth: nat)
    requires forall k | k in ks :: k in owner.children
    ensures forall i :: 0 <= i < |KidsSlices(owner, ks, start, parentId, depth)| ==>
              LinkedWithin(KidsSlices(owner, ks, start, parentId, depth), start, i, parentId, depth)
    decreases owner, 0, |ks|
  {
    if ks != [] {
      assert ks[0] in owner.children;
      var first := NodeSlice(ks[0], start, Some(parentId), depth);
      var rest := KidsSlices(owner, ks[1..], start + |first|, parentId, depth);
      NodeSliceLinks(ks[0], start, Some(parentId), depth);
      KidsSliceLinks(owner, ks[1..], start + |first|, parentId, depth);
      var r := KidsSlices(owner, ks, start, parentId, depth);
      assert r == first + rest;
      forall i | 0 <= i < |r|
        ensures LinkedWithin(r, start, i, parentId, depth)
      {
        if i < |first| {
          assert r[i] == first[i];
          if i > 0 {
            assert LinkedInside(first, start, i);
            var p := first[i].parent.value;
            assert r[p - start] == first[p - start];
          }
        } else {
          var j := i - |first|;
          assert r[i] == rest[j];
          assert LinkedWithin(rest, start + |first|, j, parentId, depth);
          if LinkedInside(rest, start + |first|, j) {
            var p := rest[j].parent.value;
            assert r[p - start] == rest[p - start - |first|];
          }
        }
      }
    }
  }

  /** `max(total_time - child_total, 0)` is never negative, for any slice of the list. */
  lemma {:induction false} NodeSliceInnerNonNegative(n: RegionNode, id: nat, parent: Option<nat>, depth: nat)
    ensures forall i :: 0 <= i < |NodeSlice(n, id, parent, depth)| ==> NodeSlice(n, id, parent, depth)[i].totalInnerTime >= 0
    decreases n, 1
  {
    var kids := SortByTotal(n.children);
    SortMembers(n);
    KidsSliceInnerNonNegative(n, kids, id + 1, id, depth + 1);
  }

  lemma {:induction false} KidsSliceInnerNonNegative(owner: RegionNode, ks: seq<RegionNode>, start: nat, parentId: nat, depth: nat)
    requires forall k | k in ks :: k in owner.children
    ensures forall i :: 0 <= i < |KidsSlices(owner, ks, start, parentId, depth)| ==>
              KidsSlices(owner, ks, start, parentId, depth)[i].totalInnerTime >= 0
    decreases owner, 0, |ks|
  {
    if ks != [] {
      assert ks[0] in owner.children;
      var first := NodeSlice(ks[0], start, Some(parentId), depth);
      NodeSliceInnerNonNegative(ks[0], start, Some(parentId), depth);
      KidsSliceInnerNonNegative(owner, ks[1..], start + |first|, parentId, depth);
    }
  }

  /**
    The node's own slice: its name, statistics, the given parent and depth,
    and as inner time its total less the total of all its children (in any
    order), clamped at 0.
   */
  lemma NodeSliceHead(n: RegionNode, id: nat, parent: Option<nat>, depth: nat)
    ensures NodeSlice(n, id, parent, depth)[0]
              == NewSlice(id, n.name, parent, depth, n.stats.count, n.stats.total,
                          Max(n.stats.total - TotalOf(n.children), 0), n.stats.min, n.stats.max)
  {
    SortSizeTotal(n.children);
  }

  /** Where the slice of the `j`-th of the siblings `ks` starts: after all slices of the ones before it. */
  function Offset(ks: seq<RegionNode>, j: nat): nat
    requires j <= |ks|
  {
    SizeAll(ks[..j])
  }

  /** The `j`-th sibling's first slice comes right after the slices of the siblings before it; `KidsSliceBlock` gives its whole block. */
  lemma KidsSliceHeads(owner: RegionNode, ks: seq<RegionNode>, start: nat, parentId: nat, depth: nat, j: nat)
    requires forall k | k in ks :: k in owner.children
    requires j < |ks|
    ensures Offset(ks, j) < |KidsSlices(owner, ks, start, parentId, depth)|
    ensures KidsSlices(owner, ks, start, parentId, depth)[Offset(ks, j)]
              == NodeSlice(ks[j], start + Offset(ks, j), Some(parentId), depth)[0]
  {
    KidsSliceElem(owner, ks, start, parentId, depth, j, 0, Offset(ks, j));
  }

  /** Every sibling list's nodes each take at least one slice, so later siblings start later. */
  lemma {:induction false} OffsetIncreases(ks: seq<RegionNode>, j: nat, k: nat)
    requires j < k <= |ks|
    ensures Offset(ks, j) < Offset(ks, k)
    decreases k
  {
    assert ks[..k] == ks[..k - 1] + [ks[k - 1]];
    SizeAllSnoc(ks[..k - 1], ks[k - 1]);
    assert ks[..k][..k - 1] == ks[..k - 1];
    if j < k - 1 {
      OffsetIncreases(ks, j, k - 1);
    }
  }

  lemma {:induction false} SizeAllSnoc(ks: seq<RegionNode>, x: RegionNode)
    ensures SizeAll(ks + [x]) == SizeAll(ks) + Size(x)
  {
    if ks != [] {
      assert (ks + [x])[1..] == ks[1..] + [x];
      SizeAllSnoc(ks[1..], x);
    } else {
      assert ks + [x] == [x];
    }
  }

  /**
    The `j`-th child in sorted order has its own slice, right after the
    slices of the children sorted before it: a direct child of the node's
    slice, one level deeper, with the child's name and total.
   */
  lemma ChildSlice(n: RegionNode, id: nat, parent: Option<nat>, depth: nat, j: nat)
    requires j < |n.children|
    ensures var kids := SortByTotal(n.children);
            var r := NodeSlice(n, id, parent, depth);
            var at := 1 + Offset(kids, j);
            && at < |r|
            && r[at].parent == Some(id) && r[at].callDepth == depth + 1
            && r[at].name == kids[j].name && r[at].totalTime == kids[j].stats.total
  {
    var kids := SortByTotal(n.children);
    SortMembers(n);
    var r := NodeSlice(n, id, parent, depth);
    var rk := KidsSlices(n, kids, id + 1, id, depth + 1);
    assert r == [r[0]] + rk;
    KidsSliceHeads(n, kids, id + 1, id, depth + 1, j);
    NodeSliceHead(kids[j], id + 1 + Offset(kids, j), Some(id), depth + 1);
  }

  /**
    Children are listed in decreasing total: a child listed before another
    has a total at least as large. Which of two children with equal totals
    comes first is fixed by `SortStable`.
   */
  lemma SiblingsDescend(n: RegionNode, id: nat, parent: Option<nat>, depth: nat, j: nat, k: nat)
    requires j < k < |n.children|
    ensures var kids := SortByTotal(n.children);
            var r := NodeSlice(n, id, parent, depth);
            && 1 + Offset(kids, j) < 1 + Offset(kids, k) < |r|
            && r[1 + Offset(kids, j)].totalTime >= r[1 + Offset(kids, k)].totalTime
  {
    var kids := SortByTotal(n.children);
    OffsetIncreases(kids, j, k);
    ChildSlice(n, id, parent, depth, j);
    ChildSlice(n, id, parent, depth, k);
    SortDescending(n.children);
  }

  // ---------------------------------------------------------------------------
  // Whole subtrees: every node's block is its own `get_node_slice`
  // ---------------------------------------------------------------------------

  /** A node's list has one slice per node of its subtree. */
  lemma NodeSliceSize(n: RegionNode, id: nat, parent: Option<nat>, depth: nat)
    ensures |NodeSlice(n, id, parent, depth)| == Size(n)
  {
    NodeSliceIds(n, id, parent, depth);
  }

  /** Slice `a + i` of `r` is slice `i` of `x`. */
  ghost predicate AgreesAt<T>(r: seq<T>, a: nat, x: seq<T>, i: nat)
  {
    a + i < |r| && i < |x| && r[a + i] == x[i]
  }

  /** A list that agrees with `x` slice by slice from `a` on holds `x` as a block at `a`. */
  lemma BlockFromElems<T>(r: seq<T>, a: nat, x: seq<T>)
    requires a + |x| <= |r|
    requires forall i: nat :: i < |x| ==> AgreesAt(r, a, x, i)
    ensures r[a .. a + |x|] == x
  {
    forall i | 0 <= i < |x|
      ensures r[a .. a + |x|][i] == x[i]
    {
      assert AgreesAt(r, a, x, i);
    }
  }

  /** The `j`-th sibling's slices come after the first sibling's and the `j - 1` before it among the rest. */
  lemma OffsetCons(ks: seq<RegionNode>, j: nat)
    requires 0 < j <= |ks|
    ensures Offset(ks, j) == Size(ks[0]) + Offset(ks[1..], j - 1)
  {
    assert ks[..j] == [ks[0]] + ks[1..][..j - 1];
    assert ks[..j][1..] == ks[1..][..j - 1];
  }

  /** One turn of the loop: the first sibling's list, then the rest's. */
  lemma KidsSlicesCons(owner: RegionNode, ks: seq<RegionNode>, start: nat, parentId: nat, depth: nat)
    requires forall k | k in ks :: k in owner.children
    requires ks != []
    ensures KidsSlices(owner, ks, start, parentId, depth)
              == NodeSlice(ks[0], start, Some(parentId), depth)
                 + KidsSlices(owner, ks[1..], start + Size(ks[0]), parentId, depth)
  {
    NodeSliceSize(ks[0], start, Some(parentId), depth);
  }

  /** The first `Size(ks[0])` of the siblings' slices are the first sibling's list. */
  lemma KidsSlicesFront(owner: RegionNode, ks: seq<RegionNode>, start: nat, parentId: nat, depth: nat, at: nat)
    requires forall k | k in ks :: k in owner.children
    requires ks != [] && at < Size(ks[0])
    ensures at < |KidsSlices(owner, ks, start, parentId, depth)|
    ensures at < |NodeSlice(ks[0], start, Some(parentId), depth)|
    ensures KidsSlices(owner, ks, start, parentId, depth)[at] == NodeSlice(ks[0], start, Some(parentId), depth)[at]
  {
    KidsSlicesCons(owner, ks, start, parentId, depth);
    NodeSliceSize(ks[0], start, Some(parentId), depth);
  }

  /** Past the first sibling's list come the rest's slices. */
  lemma KidsSlicesBack(owner: RegionNode, ks: seq<RegionNode>, start: nat, parentId: nat, depth: nat, at: nat, rest: nat)
    requires forall k | k in ks :: k in owner.children
    requires ks != []
    requires rest < |KidsSlices(owner, ks[1..], start + Size(ks[0]), parentId, depth)| && at == Size(ks[0]) + rest
    ensures at < |KidsSlices(owner, ks, start, parentId, depth)|
    ensures KidsSlices(owner, ks, start, parentId, depth)[at]
              == KidsSlices(owner, ks[1..], start + Size(ks[0]), parentId, depth)[rest]
  {
    KidsSlicesCons(owner, ks, start, parentId, depth);
    NodeSliceSize(ks[0], start, Some(parentId), depth);
  }

  /**
    Slice `at` of the siblings' slices, `i` places into the `j`-th
    sibling's block, is slice `i` of that sibling's own list.
   */
  lemma {:induction false} KidsSliceElem(owner: RegionNode, ks: seq<RegionNode>, start: nat, parentId: nat, depth: nat,
                                         j: nat, i: nat, at: nat)
    requires forall k | k in ks :: k in owner.children
    requires j < |ks| && i < Size(ks[j]) && at == Offset(ks, j) + i
    ensures at < |KidsSlices(owner, ks, start, parentId, depth)|
    ensures |NodeSlice(ks[j], start + Offset(ks, j), Some(parentId), depth)| == Size(ks[j])
    ensures KidsSlices(owner, ks, start, parentId, depth)[at]
              == NodeSlice(ks[j], start + Offset(ks, j), Some(parentId), depth)[i]
    decreases |ks|
  {
    NodeSliceSize(ks[j], start + Offset(ks, j), Some(parentId), depth);
    if j == 0 {
      assert ks[..0] == [];
      KidsSlicesFront(owner, ks, start, parentId, depth, at);
    } else {
      OffsetCons(ks, j);
      assert ks[1..][j - 1] == ks[j];
      KidsSliceElem(owner, ks[1..], start + Size(ks[0]), parentId, depth, j - 1, i, at - Size(ks[0]));
      KidsSlicesBack(owner, ks, start, parentId, depth, at, at - Size(ks[0]));
    }
  }

  /**
    The loop appends each sibling's subtree as one block: the `Size(ks[j])`
    slices from `Offset(ks, j)` on are exactly what the recursive call on
    `ks[j]` appends, hung from `parentId`.
   */
  lemma KidsSliceBlock(owner: RegionNode, ks: seq<RegionNode>, start: nat, parentId: nat, depth: nat, j: nat)
    requires forall k | k in ks :: k in owner.children
    requires j < |ks|
    ensures Offset(ks, j) + Size(ks[j]) <= |KidsSlices(owner, ks, start, parentId, depth)|
    ensures KidsSlices(owner, ks, start, parentId, depth)[Offset(ks, j) .. Offset(ks, j) + Size(ks[j])]
              == NodeSlice(ks[j], start + Offset(ks, j), Some(parentId), depth)
  {
    NodeSliceSize(ks[j], start + Offset(ks, j), Some(parentId), depth);
    KidsSliceElem(owner, ks, start, parentId, depth, j, Size(ks[j]) - 1, Offset(ks, j) + (Size(ks[j]) - 1));
    var block := NodeSlice(ks[j], start + Offset(ks, j), Some(parentId), depth);
    forall i: nat | i < |block|
      ensures AgreesAt(KidsSlices(owner, ks, start, parentId, depth), Offset(ks, j), block, i)
    {
      KidsSliceElem(owner, ks, start, parentId, depth, j, i, Offset(ks, j) + i);
    }
    BlockFromElems(KidsSlices(owner, ks, start, parentId, depth), Offset(ks, j), block);
  }

  /** The `j`-th child of `n` in slice order, that is by decreasing total. */
  function KidAt(n: RegionNode, j: nat): (r: RegionNode)
    requires j < |n.children|
    ensures r in n.children
  {
    SortMembers(n);
    SortByTotal(n.children)[j]
  }

  /** Where the `j`-th child's block starts in `n`'s list: after `n`'s own slice and the children sorted before it. */
  function ChildStart(n: RegionNode, j: nat): nat
    requires j < |n.children|
  {
    1 + Offset(SortByTotal(n.children), j)
  }

  /** Slice `at` of a node's list, `i` places into its `j`-th child's block, is slice `i` of the child's own list. */
  lemma ChildElem(n: RegionNode, id: nat, parent: Option<nat>, depth: nat, j: nat, i: nat, at: nat)
    requires j < |n.children| && i < Size(KidAt(n, j)) && at == ChildStart(n, j) + i
    ensures at < |NodeSlice(n, id, parent, depth)|
    ensures |NodeSlice(KidAt(n, j), id + ChildStart(n, j), Some(id), depth + 1)| == Size(KidAt(n, j))
    ensures NodeSlice(n, id, parent, depth)[at] == NodeSlice(KidAt(n, j), id + ChildStart(n, j), Some(id), depth + 1)[i]
  {
    SortMembers(n);
    NodeSliceSize(KidAt(n, j), id + ChildStart(n, j), Some(id), depth + 1);
    KidsSliceElem(n, SortByTotal(n.children), id + 1, id, depth + 1, j, i, at - 1);
    assert NodeSlice(n, id, parent, depth)[at] == KidsSlices(n, SortByTotal(n.children), id + 1, id, depth + 1)[at - 1];
  }

  /**
    The `j`-th child in sorted order owns one block of its parent's list,
    right after the slices of the children sorted before it, and that block
    is the child's own list, hung from the parent's slice one level deeper.
   */
  lemma ChildBlock(n: RegionNode, id: nat, parent: Option<nat>, depth: nat, j: nat)
    requires j < |n.children|
    ensures ChildStart(n, j) + Size(KidAt(n, j)) <= |NodeSlice(n, id, parent, depth)|
    ensures NodeSlice(n, id, parent, depth)[ChildStart(n, j) .. ChildStart(n, j) + Size(KidAt(n, j))]
              == NodeSlice(KidAt(n, j), id + ChildStart(n, j), Some(id), depth + 1)
  {
    NodeSliceSize(KidAt(n, j), id + ChildStart(n, j), Some(id), depth + 1);
    ChildElem(n, id, parent, depth, j, Size(KidAt(n, j)) - 1, ChildStart(n, j) + (Size(KidAt(n, j)) - 1));
    var block := NodeSlice(KidAt(n, j), id + ChildStart(n, j), Some(id), depth + 1);
    forall i: nat | i < |block|
      ensures AgreesAt(NodeSlice(n, id, parent, depth), ChildStart(n, j), block, i)
    {
      ChildElem(n, id, parent, depth, j, i, ChildStart(n, j) + i);
    }
    BlockFromElems(NodeSlice(n, id, parent, depth), ChildStart(n, j), block);
  }

  /**
    A route from a node down to one of its descendants: `Here`, or
    `Down(j, rest)` into the `j`-th child in sorted (slice) order.
   */
  datatype Route = Here | Down(j: nat, rest: Route)

  /** The number of levels a route descends. */
  function Levels(xs: Route): nat
  {
    match xs
    case Here => 0
    case Down(_, rest) => 1 + Levels(rest)
  }

  /** Every step of the route names an existing child. */
  predicate ValidRoute(n: RegionNode, xs: Route)
  {
    match xs
    case Here => true
    case Down(j, rest) => j < |n.children| && ValidRoute(KidAt(n, j), rest)
  }

  /** The descendant of `n` that the route `xs` leads to. */
  function Sub(n: RegionNode, xs: Route): RegionNode
    requires ValidRoute(n, xs)
  {
    match xs
    case Here => n
    case Down(j, rest) => Sub(KidAt(n, j), rest)
  }

  /** Where the descendant's slice sits in `n`'s list, level by level. */
  function Pos(n: RegionNode, xs: Route): nat
    requires ValidRoute(n, xs)
  {
    match xs
    case Here => 0
    case Down(j, rest) => ChildStart(n, j) + Pos(KidAt(n, j), rest)
  }

  /** The id of the descendant's slice in a list numbered from `id`. */
  function SliceId(n: RegionNode, id: nat, xs: Route): nat
    requires ValidRoute(n, xs)
  {
    match xs
    case Here => id
    case Down(j, rest) => SliceId(KidAt(n, j), id + ChildStart(n, j), rest)
  }

  /** The parent link of the descendant's slice: the id of its parent node's slice. */
  function ParentId(n: RegionNode, id: nat, parent: Option<nat>, xs: Route): Option<nat>
    requires ValidRoute(n, xs)
  {
    match xs
    case Here => parent
    case Down(j, rest) => ParentId(KidAt(n, j), id + ChildStart(n, j), Some(id), rest)
  }

  /** The call depth of the descendant of a node at `depth`. */
  function DepthAt(depth: nat, xs: Route): nat
    decreases xs
  {
    match xs
    case Here => depth
    case Down(_, rest) => DepthAt(depth + 1, rest)
  }

  /** A descendant's slice id is its position past the first id, and its depth is one more per level. */
  lemma {:induction false} SliceIdPos(n: RegionNode, id: nat, depth: nat, xs: Route)
    requires ValidRoute(n, xs)
    ensures SliceId(n, id, xs) == id + Pos(n, xs)
    ensures DepthAt(depth, xs) == depth + Levels(xs)
  {
    match xs
    case Here =>
    case Down(j, rest) =>
      SliceIdPos(KidAt(n, j), id + ChildStart(n, j), depth + 1, rest);
  }

  /**
    Slice `at` of `n`'s list, `i` places into the block of the descendant
    at route `xs`, is slice `i` of the descendant's own list: numbered from
    the descendant's id, hung from its parent's slice, at its depth.
   */
  lemma {:induction false} SubtreeElem(n: RegionNode, id: nat, parent: Option<nat>, depth: nat, xs: Route, i: nat, at: nat)
    requires ValidRoute(n, xs) && i < Size(Sub(n, xs)) && at == Pos(n, xs) + i
    ensures at < |NodeSlice(n, id, parent, depth)|
    ensures |NodeSlice(Sub(n, xs), SliceId(n, id, xs), ParentId(n, id, parent, xs), DepthAt(depth, xs))| == Size(Sub(n, xs))
    ensures NodeSlice(n, id, parent, depth)[at]
              == NodeSlice(Sub(n, xs), SliceId(n, id, xs), ParentId(n, id, parent, xs), DepthAt(depth, xs))[i]
  {
    match xs
    case Here =>
      NodeSliceSize(n, id, parent, depth);
    case Down(j, rest) =>
      SubtreeElem(KidAt(n, j), id + ChildStart(n, j), Some(id), depth + 1, rest, i, Pos(KidAt(n, j), rest) + i);
      NodeSliceSize(KidAt(n, j), id + ChildStart(n, j), Some(id), depth + 1);
      ChildElem(n, id, parent, depth, j, Pos(KidAt(n, j), rest) + i, at);
  }

  /**
    Pre-order at every depth: each descendant's subtree is one block of the
    list, at the descendant's position, and the block is the descendant's
    own list, numbered from its id, hung from its parent node's slice.
   */
  lemma SubtreeBlock(n: RegionNode, id: nat, parent: Option<nat>, depth: nat, xs: Route)
    requires ValidRoute(n, xs)
    ensures Pos(n, xs) + Size(Sub(n, xs)) <= |NodeSlice(n, id, parent, depth)|
    ensures NodeSlice(n, id, parent, depth)[Pos(n, xs) .. Pos(n, xs) + Size(Sub(n, xs))]
              == NodeSlice(Sub(n, xs), SliceId(n, id, xs), ParentId(n, id, parent, xs), DepthAt(depth, xs))
  {
    NodeSliceSize(Sub(n, xs), SliceId(n, id, xs), ParentId(n, id, parent, xs), DepthAt(depth, xs));
    SubtreeElem(n, id, parent, depth, xs, Size(Sub(n, xs)) - 1, Pos(n, xs) + (Size(Sub(n, xs)) - 1));
    var block := NodeSlice(Sub(n, xs), SliceId(n, id, xs), ParentId(n, id, parent, xs), DepthAt(depth, xs));
    forall i: nat | i < |block|
      ensures AgreesAt(NodeSlice(n, id, parent, depth), Pos(n, xs), block, i)
    {
      SubtreeElem(n, id, parent, depth, xs, i, Pos(n, xs) + i);
    }
    BlockFromElems(NodeSlice(n, id, parent, depth), Pos(n, xs), block);
  }

  // ---------------------------------------------------------------------------
  // Parent links and sibling order across the whole slice
  // ---------------------------------------------------------------------------

  /** Every slice of the siblings' list falls inside one sibling's block. */
  lemma {:induction false} FindKid(ks: seq<RegionNode>, m: nat) returns (k: nat)
    requires m < SizeAll(ks)
    ensures k < |ks| && Offset(ks, k) <= m < Offset(ks, k) + Size(ks[k])
    decreases |ks|
  {
    if m < Size(ks[0]) {
      k := 0;
      assert ks[..0] == [];
    } else {
      var k1 := FindKid(ks[1..], m - Size(ks[0]));
      k := k1 + 1;
      OffsetCons(ks, k);
      assert ks[1..][k1] == ks[k];
    }
  }

  /**
    Every slice but a node's own is the head of the block of some
    descendant's child: it is reached by a route to that descendant and
    the child's place among the descendant's sorted children.
   */
  lemma {:induction false} Locate(n: RegionNode, i: nat) returns (xs: Route, j: nat)
    requires 1 <= i < Size(n)
    ensures ValidRoute(n, xs) && j < |Sub(n, xs).children|
    ensures i == Pos(n, xs) + ChildStart(Sub(n, xs), j)
    decreases n
  {
    SortSizeTotal(n.children);
    var k := FindKid(SortByTotal(n.children), i - 1);
    if i == ChildStart(n, k) {
      xs, j := Here, k;
    } else {
      var ys, j1 := Locate(KidAt(n, k), i - ChildStart(n, k));
      xs, j := Down(k, ys), j1;
    }
  }

  /** The slice at a descendant's position is that descendant's own: its id, name and depth. */
  lemma SubtreeHead(n: RegionNode, id: nat, parent: Option<nat>, depth: nat, xs: Route)
    requires ValidRoute(n, xs)
    ensures Pos(n, xs) < |NodeSlice(n, id, parent, depth)|
    ensures NodeSlice(n, id, parent, depth)[Pos(n, xs)].id == SliceId(n, id, xs)
    ensures NodeSlice(n, id, parent, depth)[Pos(n, xs)].name == Sub(n, xs).name
    ensures NodeSlice(n, id, parent, depth)[Pos(n, xs)].callDepth == DepthAt(depth, xs)
  {
    SubtreeElem(n, id, parent, depth, xs, 0, Pos(n, xs));
    NodeSliceHead(Sub(n, xs), SliceId(n, id, xs), ParentId(n, id, parent, xs), DepthAt(depth, xs));
  }

  /**
    The slice of the `j`-th child of a descendant is the child's own, and
    it hangs from the descendant's slice, one level deeper.
   */
  lemma SubtreeChildHead(n: RegionNode, id: nat, parent: Option<nat>, depth: nat, xs: Route, j: nat)
    requires ValidRoute(n, xs) && j < |Sub(n, xs).children|
    ensures Pos(n, xs) + ChildStart(Sub(n, xs), j) < |NodeSlice(n, id, parent, depth)|
    ensures NodeSlice(n, id, parent, depth)[Pos(n, xs) + ChildStart(Sub(n, xs), j)].parent == Some(SliceId(n, id, xs))
    ensures NodeSlice(n, id, parent, depth)[Pos(n, xs) + ChildStart(Sub(n, xs), j)].callDepth == DepthAt(depth, xs) + 1
    ensures NodeSlice(n, id, parent, depth)[Pos(n, xs) + ChildStart(Sub(n, xs), j)].name == KidAt(Sub(n, xs), j).name
    ensures NodeSlice(n, id, parent, depth)[Pos(n, xs) + ChildStart(Sub(n, xs), j)].totalTime
              == KidAt(Sub(n, xs), j).stats.total
  {
    ChildSlice(Sub(n, xs), SliceId(n, id, xs), ParentId(n, id, parent, xs), DepthAt(depth, xs), j);
    NodeSliceSize(Sub(n, xs), SliceId(n, id, xs), ParentId(n, id, parent, xs), DepthAt(depth, xs));
    SubtreeElem(n, id, parent, depth, xs, ChildStart(Sub(n, xs), j), Pos(n, xs) + ChildStart(Sub(n, xs), j));
  }

  /**
    The parent link of the slice of the `j`-th child of the node at route
    `xs` is the position of that node's slice, one level up: the slice of
    the node the child hangs from in the tree, and no other.
   */
  lemma ProfilerSliceParent(root: RegionNode, xs: Route, j: nat)
    requires ValidRoute(root, xs) && j < |Sub(root, xs).children|
    ensures Pos(root, xs) < Pos(root, xs) + ChildStart(Sub(root, xs), j) < |ProfilerSlice(root)|
    ensures ProfilerSlice(root)[Pos(root, xs)].id == Pos(root, xs)
    ensures ProfilerSlice(root)[Pos(root, xs)].name == Sub(root, xs).name
    ensures ProfilerSlice(root)[Pos(root, xs)].callDepth == Levels(xs)
    ensures ProfilerSlice(root)[Pos(root, xs) + ChildStart(Sub(root, xs), j)].name == KidAt(Sub(root, xs), j).name
    ensures ProfilerSlice(root)[Pos(root, xs) + ChildStart(Sub(root, xs), j)].parent == Some(Pos(root, xs))
    ensures ProfilerSlice(root)[Pos(root, xs) + ChildStart(Sub(root, xs), j)].callDepth == Levels(xs) + 1
  {
    SliceIdPos(root, 0, 0, xs);
    SubtreeHead(root, 0, None, 0, xs);
    SubtreeChildHead(root, 0, None, 0, xs, j);
  }

  /**
    Every slice but the root's hangs from the slice of its parent node:
    slice `i` is the slice of the `j`-th child of the node at route `xs`,
    and its parent link is that node's slice.
   */
  lemma EverySliceLinked(root: RegionNode, i: nat) returns (xs: Route, j: nat)
    requires 1 <= i < |ProfilerSlice(root)|
    ensures ValidRoute(root, xs) && j < |Sub(root, xs).children|
    ensures i == Pos(root, xs) + ChildStart(Sub(root, xs), j)
    ensures ProfilerSlice(root)[i].name == KidAt(Sub(root, xs), j).name
    ensures ProfilerSlice(root)[i].parent == Some(Pos(root, xs))
    ensures ProfilerSlice(root)[Pos(root, xs)].name == Sub(root, xs).name
  {
    NodeSliceSize(root, 0, None, 0);
    xs, j := Locate(root, i);
    ProfilerSliceParent(root, xs, j);
  }

  /**
    Sibling order at every depth: among the children of the node at route
    `xs`, one listed before another has a total at least as large.
   */
  lemma DeepSiblingsDescend(root: RegionNode, xs: Route, j: nat, k: nat)
    requires ValidRoute(root, xs) && j < k < |Sub(root, xs).children|
    ensures Pos(root, xs) + ChildStart(Sub(root, xs), j) < Pos(root, xs) + ChildStart(Sub(root, xs), k) < |ProfilerSlice(root)|
    ensures ProfilerSlice(root)[Pos(root, xs) + ChildStart(Sub(root, xs), j)].totalTime
              >= ProfilerSlice(root)[Pos(root, xs) + ChildStart(Sub(root, xs), k)].totalTime
  {
    SubtreeChildHead(root, 0, None, 0, xs, j);
    SubtreeChildHead(root, 0, None, 0, xs, k);
    SortDescending(Sub(root, xs).children);
    OffsetIncreases(SortByTotal(Sub(root, xs).children), j, k);
  }
}
