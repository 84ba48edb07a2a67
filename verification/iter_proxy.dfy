/**
  `RegionProfiler.iter_proxy` of region_profiler/profiler.py. The source is a
  generator; here it is a state machine advanced by one `Pull` per call of
  `next()` on the proxy.
 */
module IterProxy {
  import opened Wrappers
  import opened Utils
  import opened Node
  import opened Tree
  import opened Profiler

  /** What the wrapped iterator's `next()` does once its elements are used up. */
  datatype Ending = Exhausted | Raises(error: string)

  /** The wrapped iterable: the elements its iterator returns, then how it ends. */
  datatype Upstream<T> = Upstream(items: seq<T>, ending: Ending)

  /** The generator returned by `iter_proxy`. */
  datatype Proxy<T> =
    | NotStarted(name: string, asglobal: bool, source: Upstream<T>)  // body not yet run
    | Suspended(node: Path, source: Upstream<T>, pos: nat)           // paused at `yield`, `pos` elements taken
    | Finished                                                       // returned or raised

  /** What one `next()` on the proxy gives its consumer. */
  datatype Pulled<T> = Item(value: T) | StopIteration | Raised(error: string)

  /** The proxy refers to a node of the tree and has not run past its source. */
  ghost predicate ProxyValid<T>(p: RegionProfiler, g: Proxy<T>) {
    g.Suspended? ==> Exists(p.root, g.node) && g.pos <= |g.source.items|
  }

  /** What the pull that reaches the source's end gives the consumer. */
  function Last<T>(src: Upstream<T>): Pulled<T>
  {
    if src.ending.Exhausted? then StopIteration else Raised(src.ending.error)
  }

  /** Whether the turn at `pos` is timed: an element or an error ending is, the normal end is not. */
  predicate Timed<T>(src: Upstream<T>, pos: nat) {
    pos < |src.items| || src.ending.Raises?
  }

  /**
    What one turn of the generator's loop does to the node it times: a
    timed turn adds the difference of the next two clock readings as a
    sample, an untimed one reads the clock once and adds nothing; either
    way the node is left without a live timer. See `TurnIsRegionOps` for
    the same turn spelled with the node's own operations.
   */
  function Turn<T>(n: RegionNode, c: Clock, src: Upstream<T>, pos: nat): (r: (RegionNode, Clock))
    ensures r.0 == n.(timer := None, stats := r.0.stats)
    ensures r.0.stats.count == n.stats.count + (if Timed(src, pos) then 1 else 0)
    ensures r.1.tick == c.tick + (if Timed(src, pos) then 2 else 1)
  {
    if Timed(src, pos) then
      (n.(timer := None, stats := Add(n.stats, c.read(c.tick + 1) - c.read(c.tick))), c.(tick := c.tick + 2))
    else
      (n.(timer := None), c.(tick := c.tick + 1))
  }

  /**
    A turn is enter, then exit for an element or an error ending, and
    enter, cancel, exit for the normal end.
   */
  lemma TurnIsRegionOps<T>(n: RegionNode, c: Clock, src: Upstream<T>, pos: nat)
    ensures var entered := EnterRegion(n, c);
            Turn(n, c, src, pos)
              == if Timed(src, pos) then ExitRegion(entered.0, entered.1)
                 else ExitRegion(CancelRegion(entered.0), entered.1)
  {
    EnterExitOneSample(n, c);
    CancelThenExit(n, c);
  }

  /** The listener calls of one turn: entered, then cancelled for the normal end, then exited. */
  function TurnCalls<T>(listeners: nat, node: Path, src: Upstream<T>, pos: nat): seq<ListenerCall>
  {
    if Timed(src, pos) then
      Broadcast(listeners, Entered(node)) + Broadcast(listeners, Exited(node))
    else
      Broadcast(listeners, Entered(node)) + Broadcast(listeners, Canceled(node)) + Broadcast(listeners, Exited(node))
  }

  /**
    One turn of the generator's `while` loop for the resolved node at
    `node`: push, enter, fetch. An element is timed (exit, pop) and yielded;
    the end of the source cancels, then the `finally` exits (a no-op on the
    statistics) and pops; an error exits (recording a sample) and pops.
    See `StepIsProfilerOps` for the same turn spelled with the profiler's
    own operations.
   */
  function Step<T>(p: RegionProfiler, node: Path, src: Upstream<T>, pos: nat): (r: (RegionProfiler, Proxy<T>, Pulled<T>))
    requires Valid(p) && Exists(p.root, node) && pos <= |src.items|
    ensures Valid(r.0) && Covers(p.root, r.0.root) && ProxyValid(r.0, r.1)
    ensures r.0.stack == p.stack && r.0.listeners == p.listeners
    ensures r.0.root == Put(p.root, node, Turn(At(p.root, node).value, p.clock, src, pos).0)
    ensures At(r.0.root, node) == Some(Turn(At(p.root, node).value, p.clock, src, pos).0)
    ensures r.0.clock == Turn(At(p.root, node).value, p.clock, src, pos).1
    ensures r.0.calls == p.calls + TurnCalls(p.listeners, node, src, pos)
    ensures pos < |src.items| ==> r.2 == Item(src.items[pos]) && r.1 == Suspended(node, src, pos + 1)
    ensures pos == |src.items| ==> r.2 == Last(src) && r.1 == Finished
  {
    var t := Turn(At(p.root, node).value, p.clock, src, pos);
    PutSameChildrenCovers(p.root, node, t.0);
    var q := p.(root := Put(p.root, node, t.0), clock := t.1,
                calls := p.calls + TurnCalls(p.listeners, node, src, pos));
    if pos < |src.items| then (q, Suspended(node, src, pos + 1), Item(src.items[pos]))
    else (q, Finished, Last(src))
  }

  /**
    `Step` is the source's sequence of profiler operations: push and enter;
    then exit and pop for an element or an error, cancel, exit and pop for
    the normal end.
   */
  lemma StepIsProfilerOps<T>(p: RegionProfiler, node: Path, src: Upstream<T>, pos: nat)
    requires Valid(p) && Exists(p.root, node) && pos <= |src.items|
    ensures var entered := EnterCurrent(Push(p, node));
            Step(p, node, src, pos).0
              == if Timed(src, pos) then Pop(ExitCurrent(entered)) else Pop(ExitCurrent(CancelCurrent(entered)))
  {
    var n := At(p.root, node).value;
    TurnIsRegionOps(n, p.clock, src, pos);
    var pushed := Push(p, node);
    var entered := EnterCurrent(pushed);
    var e := EnterRegion(n, p.clock);
    assert CurrentNode(pushed) == n;
    assert entered.root == Put(p.root, node, e.0);
    assert (p.stack + [node])[..|p.stack|] == p.stack;
    if Timed(src, pos) {
      var x := ExitRegion(e.0, e.1);
      var exited := ExitCurrent(entered);
      assert CurrentNode(entered) == e.0;
      assert exited.root == Put(Put(p.root, node, e.0), node, x.0);
      PutPut(p.root, node, e.0, x.0);
    } else {
      var canceled := CancelCurrent(entered);
      assert CurrentNode(entered) == e.0;
      var cn := CancelRegion(e.0);
      assert canceled.root == Put(Put(p.root, node, e.0), node, cn);
      PutPut(p.root, node, e.0, cn);
      var x := ExitRegion(cn, e.1);
      var exited := ExitCurrent(canceled);
      assert CurrentNode(canceled) == cn;
      assert exited.root == Put(Put(p.root, node, cn), node, x.0);
      PutPut(p.root, node, cn, x.0);
    }
  }

  /**
    One `next()` on the proxy. The first one runs the generator body up to
    the loop, resolving the node once, from the parent current at that time.
   */
  function Pull<T>(p: RegionProfiler, g: Proxy<T>): (r: (RegionProfiler, Proxy<T>, Pulled<T>))
    requires Valid(p) && ProxyValid(p, g)
    ensures Valid(r.0) && Covers(p.root, r.0.root) && ProxyValid(r.0, r.1)
    ensures r.0.stack == p.stack
    ensures g.Finished? ==> r == (p, Finished, StopIteration)
    ensures g.NotStarted? && r.1.Suspended? ==> r.1.node == ParentPath(p, g.asglobal) + [g.name]
    ensures g.Suspended? && r.1.Suspended? ==> r.1.node == g.node && r.1.pos == g.pos + 1
    ensures r.2.Item? <==> r.1.Suspended?
  {
    match g
    case Finished => (p, Finished, StopIteration)
    case NotStarted(name, asglobal, src) =>
      var resolved := Resolve(p, name, asglobal);
      Step(resolved.0, resolved.1, src, 0)
    case Suspended(node, src, pos) => Step(p, node, src, pos)
  }

  /** `k` calls of `next()` on the proxy with nothing in between, and what they gave. */
  function Drain<T>(p: RegionProfiler, g: Proxy<T>, k: nat): (r: (RegionProfiler, Proxy<T>, seq<Pulled<T>>))
    requires Valid(p) && ProxyValid(p, g)
    ensures Valid(r.0) && Covers(p.root, r.0.root) && ProxyValid(r.0, r.1)
    ensures r.0.stack == p.stack && |r.2| == k
    decreases k
  {
    if k == 0 then (p, g, [])
    else
      var s := Pull(p, g);
      var rest := Drain(s.0, s.1, k - 1);
      (rest.0, rest.1, [s.2] + rest.2)
  }

  /** Each element, as the proxy yields it. */
  function Items<T>(xs: seq<T>): (r: seq<Pulled<T>>)
    ensures |r| == |xs|
    ensures forall i :: 0 <= i < |xs| ==> r[i] == Item(xs[i])
  {
    if xs == [] then [] else [Item(xs[0])] + Items(xs[1..])
  }

  /** Pulling `k` > 0 times is one pull followed by `k - 1` more. */
  lemma DrainUnfold<T>(p: RegionProfiler, g: Proxy<T>, k: nat)
    requires Valid(p) && ProxyValid(p, g) && k > 0
    ensures var s := Pull(p, g);
            Drain(p, g, k) == (Drain(s.0, s.1, k - 1).0, Drain(s.0, s.1, k - 1).1, [s.2] + Drain(s.0, s.1, k - 1).2)
  {
  }

  /** The sample count a source adds: one per element, and one more for an error ending. */
  function Samples<T>(src: Upstream<T>, pos: nat): nat
    requires pos <= |src.items|
  {
    |src.items| - pos + (if src.ending.Exhausted? then 0 else 1)
  }

  /** What a paused proxy at `pos` yields from there on: each remaining element, then the end. */
  function Yields<T>(src: Upstream<T>, pos: nat): (r: seq<Pulled<T>>)
    requires pos <= |src.items|
    decreases |src.items| - pos
  {
    if pos == |src.items| then [Last(src)] else [Item(src.items[pos])] + Yields(src, pos + 1)
  }

  /** The yields from `pos` are the items from `pos` followed by the end. */
  lemma {:induction false} YieldsAreItems<T>(src: Upstream<T>, pos: nat)
    requires pos <= |src.items|
    ensures Yields(src, pos) == Items(src.items[pos..]) + [Last(src)]
    decreases |src.items| - pos
  {
    if pos < |src.items| {
      YieldsAreItems(src, pos + 1);
      assert src.items[pos..] == [src.items[pos]] + src.items[pos + 1..];
      assert Items(src.items[pos..]) == [Item(src.items[pos])] + Items(src.items[pos + 1..]);
    }
  }

  /** From a paused proxy, pulling until the source's end gives what `Yields` lists and finishes the generator. */
  lemma {:induction false} DrainSuspendedYields<T>(p: RegionProfiler, node: Path, src: Upstream<T>, pos: nat)
    requires Valid(p) && Exists(p.root, node) && pos <= |src.items|
    ensures Drain(p, Suspended(node, src, pos), |src.items| - pos + 1).1 == Finished
    ensures Drain(p, Suspended(node, src, pos), |src.items| - pos + 1).2 == Yields(src, pos)
    decreases |src.items| - pos
  {
    var g := Suspended(node, src, pos);
    var k := |src.items| - pos + 1;
    var s := Step(p, node, src, pos);
    var rest := Drain(s.0, s.1, k - 1);
    assert Drain(p, g, k) == (rest.0, rest.1, [s.2] + rest.2) by {
      assert Pull(p, g) == s;
      DrainUnfold(p, g, k);
    }
    if pos < |src.items| {
      assert s.1 == Suspended(node, src, pos + 1) && s.2 == Item(src.items[pos]);
      DrainSuspendedYields(s.0, node, src, pos + 1);
    }
  }

  /** The node after the turns from `pos` to the source's end, and the clock after them. */
  function Turns<T>(n: RegionNode, c: Clock, src: Upstream<T>, pos: nat): (r: (RegionNode, Clock))
    requires pos <= |src.items|
    ensures r.0 == n.(timer := None, stats := r.0.stats)
    decreases |src.items| - pos
  {
    var t := Turn(n, c, src, pos);
    if pos == |src.items| then t else Turns(t.0, t.1, src, pos + 1)
  }

  /** The profiler after the turns from `pos` to the source's end at the node `node`. */
  function Rest<T>(p: RegionProfiler, node: Path, src: Upstream<T>, pos: nat): (r: RegionProfiler)
    requires Valid(p) && Exists(p.root, node) && pos <= |src.items|
    decreases |src.items| - pos
  {
    var s := Step(p, node, src, pos);
    if pos == |src.items| then s.0 else Rest(s.0, node, src, pos + 1)
  }

  /** Pulling a paused proxy until the source's end leaves the profiler the remaining turns leave. */
  lemma {:induction false} DrainIsRest<T>(p: RegionProfiler, node: Path, src: Upstream<T>, pos: nat)
    requires Valid(p) && Exists(p.root, node) && pos <= |src.items|
    ensures Drain(p, Suspended(node, src, pos), |src.items| - pos + 1).0 == Rest(p, node, src, pos)
    decreases |src.items| - pos
  {
    var g := Suspended(node, src, pos);
    var s := Step(p, node, src, pos);
    assert Pull(p, g) == s;
    DrainUnfold(p, g, |src.items| - pos + 1);
    if pos < |src.items| {
      DrainIsRest(s.0, node, src, pos + 1);
    }
  }

  /**
    The remaining turns change the node at `node` exactly as `Turns` does,
    and nothing else in the tree, and read the clock only for them.
   */
  lemma {:induction false} RestTurns<T>(p: RegionProfiler, node: Path, src: Upstream<T>, pos: nat)
    requires Valid(p) && Exists(p.root, node) && pos <= |src.items|
    ensures var t := Turns(At(p.root, node).value, p.clock, src, pos);
            Rest(p, node, src, pos).root == Put(p.root, node, t.0) && Rest(p, node, src, pos).clock == t.1
    decreases |src.items| - pos
  {
    var s := Step(p, node, src, pos);
    var t1 := Turn(At(p.root, node).value, p.clock, src, pos);
    if pos < |src.items| {
      var rest := Turns(t1.0, t1.1, src, pos + 1);
      RestTurns(s.0, node, src, pos + 1);
      PutPut(p.root, node, t1.0, rest.0);
    }
  }

  /**
    Pulling a paused proxy until the source's end changes the node it times
    exactly as the remaining turns do, and nothing else in the tree, and
    reads the clock only for them.
   */
  lemma DrainSuspendedTurns<T>(p: RegionProfiler, node: Path, src: Upstream<T>, pos: nat)
    requires Valid(p) && Exists(p.root, node) && pos <= |src.items|
    ensures var d := Drain(p, Suspended(node, src, pos), |src.items| - pos + 1);
            var t := Turns(At(p.root, node).value, p.clock, src, pos);
            d.0.root == Put(p.root, node, t.0) && d.0.clock == t.1
  {
    DrainIsRest(p, node, src, pos);
    RestTurns(p, node, src, pos);
  }

  /**
    The remaining turns add one sample per remaining element, and one more
    for an error ending, each sample the difference of two consecutive
    clock readings.
   */
  lemma {:induction false} TurnsSamples<T>(n: RegionNode, c: Clock, src: Upstream<T>, pos: nat)
    requires pos <= |src.items|
    ensures Turns(n, c, src, pos).0.stats == Collect(n.stats, Legs(c, Samples(src, pos)))
    decreases |src.items| - pos
  {
    var t := Turn(n, c, src, pos);
    var m := Samples(src, pos);
    var leg := c.read(c.tick + 1) - c.read(c.tick);
    if m > 0 {
      assert Timed(src, pos);
      assert t == (n.(timer := None, stats := Add(n.stats, leg)), c.(tick := c.tick + 2));
      LegsCons(c, m);
      CollectCons(n.stats, leg, Legs(t.1, m - 1));
      assert Collect(n.stats, Legs(c, m)) == Collect(t.0.stats, Legs(t.1, m - 1));
    }
    if pos < |src.items| {
      assert Turns(n, c, src, pos) == Turns(t.0, t.1, src, pos + 1);
      TurnsSamples(t.0, t.1, src, pos + 1);
    }
  }

  /** The first pull resolves the node and then runs the loop as a paused proxy at position 0 would. */
  lemma FirstPullResolves<T>(p: RegionProfiler, name: string, asglobal: bool, src: Upstream<T>, k: nat)
    requires Valid(p) && k >= 1
    ensures var resolved := Resolve(p, name, asglobal);
            Drain(p, NotStarted(name, asglobal, src), k) == Drain(resolved.0, Suspended(resolved.1, src, 0), k)
  {
    var resolved := Resolve(p, name, asglobal);
    DrainUnfold(p, NotStarted(name, asglobal, src), k);
    DrainUnfold(resolved.0, Suspended(resolved.1, src, 0), k);
  }

  /**
    `iter_proxy` over an n-element source, pulled until the end: it yields
    exactly the source's elements in order and then the end (StopIteration,
    or the source's error passed on), and the stack is as before.
   */
  lemma IterateYields<T>(p: RegionProfiler, name: string, asglobal: bool, src: Upstream<T>)
    requires Valid(p)
    ensures Drain(p, NotStarted(name, asglobal, src), |src.items| + 1).1 == Finished
    ensures Drain(p, NotStarted(name, asglobal, src), |src.items| + 1).0.stack == p.stack
    ensures Drain(p, NotStarted(name, asglobal, src), |src.items| + 1).2 == Items(src.items) + [Last(src)]
  {
    var resolved := Resolve(p, name, asglobal);
    FirstPullResolves(p, name, asglobal, src, |src.items| + 1);
    DrainSuspendedYields(resolved.0, resolved.1, src, 0);
    YieldsAreItems(src, 0);
    assert src.items[0..] == src.items;
  }

  /**
    `iter_proxy` over an n-element source, pulled until the end: the node,
    the child called `name` of the parent current at the first pull (created
    if absent), gains exactly n samples when the source ends normally, the
    final probe being cancelled, and n + 1 when it raises; no timer is left
    live on it.
   */
  lemma IterateSamples<T>(p: RegionProfiler, name: string, asglobal: bool, src: Upstream<T>)
    requires Valid(p)
    ensures var d := Drain(p, NotStarted(name, asglobal, src), |src.items| + 1);
            var node := ParentPath(p, asglobal) + [name];
            var before := GetChild(At(p.root, ParentPath(p, asglobal)).value, name, None).1;
            && At(d.0.root, node).Some? && At(d.0.root, node).value.timer.None?
            && At(d.0.root, node).value.stats == Collect(before.stats, Legs(p.clock, Samples(src, 0)))
            && At(d.0.root, node).value.stats.count == before.stats.count + Samples(src, 0)
  {
    var resolved := Resolve(p, name, asglobal);
    var before := At(resolved.0.root, resolved.1).value;
    FirstPullResolves(p, name, asglobal, src, |src.items| + 1);
    DrainSuspendedTurns(resolved.0, resolved.1, src, 0);
    TurnsSamples(before, p.clock, src, 0);
    CollectFrom(before.stats, Legs(p.clock, Samples(src, 0)));
  }
  /**
    Pulling `iter_proxy` to the end changes the tree only by resolving the
    node and then replacing it by what the turns make of it.
   */
  lemma IterateFrame<T>(p: RegionProfiler, name: string, asglobal: bool, src: Upstream<T>)
    requires Valid(p)
    ensures var d := Drain(p, NotStarted(name, asglobal, src), |src.items| + 1);
            var resolved := Resolve(p, name, asglobal);
            d.0.root == Put(resolved.0.root, resolved.1, Turns(At(resolved.0.root, resolved.1).value, p.clock, src, 0).0)
  {
    var resolved := Resolve(p, name, asglobal);
    var k := |src.items| + 1;
    assert Drain(p, NotStarted(name, asglobal, src), k) == Drain(resolved.0, Suspended(resolved.1, src, 0), k) by {
      FirstPullResolves(p, name, asglobal, src, k);
    }
    DrainSuspendedTurns(resolved.0, resolved.1, src, 0);
  }

  /**
    `iter_proxy` on a fresh profiler, pulled to the end: the root then has
    exactly one child, the iterated region, which has no children of its
    own and one sample per element, plus one when the source raises.
   */
  lemma IterateFreshShape<T>(cls: TimerClass, listeners: nat, clock: Clock, name: string, src: Upstream<T>)
    ensures var d := Drain(Init(cls, listeners, clock), NotStarted(name, false, src), |src.items| + 1);
            && |d.0.root.children| == 1 && d.0.root.children[0].name == name
            && d.0.root.children[0].children == []
            && d.0.root.children[0].stats.count == Samples(src, 0)
  {
    var p := Init(cls, listeners, clock);
    var resolved := Resolve(p, name, false);
    var child := NewNode(name, cls);
    assert resolved.0.root.children == [child];
    assert resolved.1 == [name];
    var t := Turns(child, clock, src, 0).0;
    IterateFrame(p, name, false, src);
    IterateSamples(p, name, false, src);
    assert Put(resolved.0.root, [name], t).children == [t];
  }
}
