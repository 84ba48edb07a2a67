/**
  The region tree node of region_profiler/node.py.

  A node owns at most one live timer, its statistics and its children in
  insertion order (the source keeps them in an OrderedDict keyed by name).
 */
module Node {
  import opened Wrappers
  import opened Utils

  /**
    The timer factory a node builds its timers with, as an opaque tag. Every
    factory in this model builds a `Utils.Timer` over the one injected clock.
   */
  type TimerClass = nat

  datatype RegionNode = RegionNode(
    name: string,
    timer: Option<Timer>,
    stats: SeqStats,
    timerCls: TimerClass,
    children: seq<RegionNode>)

  /** No two children share a name, as in a dict keyed by name. */
  ghost predicate DistinctNames(ch: seq<RegionNode>) {
    forall i, j :: 0 <= i < j < |ch| ==> ch[i].name != ch[j].name
  }

  /** `RegionNode(name, timer_cls)` as constructed. */
  function NewNode(name: string, cls: TimerClass): (r: RegionNode)
    ensures r.name == name && r.timerCls == cls
    ensures r.stats == EmptyStats && r.timer == None && r.children == []
  {
    RegionNode(name, None, EmptyStats, cls, [])
  }

  /**
    `enter_region`: build a timer if none is live, then start it. Nothing
    but the timer changes, and exactly one clock reading is consumed.
   */
  function EnterRegion(n: RegionNode, c: Clock): (r: (RegionNode, Clock))
    ensures r.0.timer.Some? && r.0.timer.value.running
    ensures r.0.timer.value.beginTs == c.Now()
    ensures r.0 == n.(timer := r.0.timer)
    ensures r.1 == c.Advance()
  {
    var t := if n.timer.None? then NewTimer else n.timer.value;
    var started := Start(t, c);
    (n.(timer := Some(started.0)), started.1)
  }

  /**
    `exit_region`: with a live timer, stop it, record its measurement as one
    sample and drop it; without one, change nothing and read no clock.
   */
  function ExitRegion(n: RegionNode, c: Clock): (r: (RegionNode, Clock))
    ensures n.timer.None? ==> r.0 == n && r.1 == c
    ensures n.timer.Some? ==> r.1 == c.Advance()
    ensures n.timer.Some? && n.timer.value.running ==>
              r.0.stats == Add(n.stats, c.Now() - n.timer.value.beginTs)
    ensures n.timer.Some? && !n.timer.value.running ==>
              r.0.stats == Add(n.stats, n.timer.value.endTs - n.timer.value.beginTs)
    ensures r.0.timer.None?
    ensures r.0 == n.(timer := r.0.timer, stats := r.0.stats)
  {
    match n.timer
    case None => (n, c)
    case Some(t) =>
      var stopped := Stop(t, c);
      // the timer is fresh and stopped once, so its total is its last measurement
      (n.(timer := None, stats := Add(n.stats, Elapsed(stopped.0))), stopped.1)
  }

  /** `cancel_region`: drop the live timer, recording nothing. */
  function CancelRegion(n: RegionNode): (r: RegionNode)
    ensures r.timer.None? && r.stats == n.stats
    ensures r == n.(timer := None)
  {
    n.(timer := None)
  }

  /** Position of the child called `name`, if there is one. */
  function IndexOf(ch: seq<RegionNode>, name: string): (r: Option<nat>)
    ensures r.Some? ==> r.value < |ch| && ch[r.value].name == name
    ensures r.Some? ==> forall j :: 0 <= j < r.value ==> ch[j].name != name
    ensures r.None? ==> forall j :: 0 <= j < |ch| ==> ch[j].name != name
  {
    if ch == [] then None
    else if ch[0].name == name then Some(0)
    else match IndexOf(ch[1..], name)
      case None => None
      case Some(i) => Some(i + 1)
  }

  /** A child called `name` exists already. */
  predicate HasChild(n: RegionNode, name: string) {
    IndexOf(n.children, name).Some?
  }

  /**
    `get_child(name, timer_cls)`: the existing child called `name`, or a new
    one appended at the end of the children, built with the given factory or
    else the parent's. The result is the updated parent and the child.
   */
  function GetChild(n: RegionNode, name: string, cls: Option<TimerClass>): (r: (RegionNode, RegionNode))
    ensures r.1.name == name
    ensures IndexOf(r.0.children, name).Some?
    ensures r.0.children[IndexOf(r.0.children, name).value] == r.1
    ensures r.0 == n.(children := r.0.children)
    ensures HasChild(n, name) ==> r.0 == n
    ensures !HasChild(n, name) ==>
              r.0.children == n.children + [r.1] && r.1 == NewNode(name, cls.GetOr(n.timerCls))
    ensures DistinctNames(n.children) ==> DistinctNames(r.0.children)
  {
    match IndexOf(n.children, name)
    case Some(i) => (n, n.children[i])
    case None =>
      var c := NewNode(name, cls.GetOr(n.timerCls));
      var ch := n.children + [c];
      assert IndexOf(ch, name) == Some(|n.children|) by { IndexOfAppend(n.children, c, name); }
      (n.(children := ch), c)
  }

  /** Appending a child leaves every earlier lookup as it was. */
  lemma {:induction false} IndexOfAppend(ch: seq<RegionNode>, c: RegionNode, name: string)
    ensures IndexOf(ch, name).Some? ==> IndexOf(ch + [c], name) == IndexOf(ch, name)
    ensures IndexOf(ch, name).None? && c.name == name ==> IndexOf(ch + [c], name) == Some(|ch|)
    ensures IndexOf(ch, name).None? && c.name != name ==> IndexOf(ch + [c], name).None?
  {
    if ch != [] {
      assert (ch + [c])[1..] == ch[1..] + [c];
      IndexOfAppend(ch[1..], c, name);
    }
  }

  /**
    `get_child` is idempotent: asking again for the same name, whatever the
    factory, returns the same child and leaves the parent unchanged.
   */
  lemma GetChildIdempotent(n: RegionNode, name: string, cls1: Option<TimerClass>, cls2: Option<TimerClass>)
    ensures GetChild(GetChild(n, name, cls1).0, name, cls2) == GetChild(n, name, cls1)
  {
  }

  /** Children asked for under different names are different nodes. */
  lemma GetChildDistinct(n: RegionNode, a: string, b: string)
    requires a != b
    ensures GetChild(n, a, None).1 != GetChild(GetChild(n, a, None).0, b, None).1
    ensures HasChild(GetChild(GetChild(n, a, None).0, b, None).0, a)
  {
    var p1 := GetChild(n, a, None).0;
    var p2 := GetChild(p1, b, None).0;
    IndexOfAppend(p1.children, GetChild(p1, b, None).1, a);
  }

  /**
    One enter/exit pair adds exactly one sample, the difference of the stop
    and the start readings, and leaves no live timer; the name, the factory
    and the children are untouched.
   */
  lemma EnterExitOneSample(n: RegionNode, c: Clock)
    ensures ExitRegion(EnterRegion(n, c).0, EnterRegion(n, c).1).0
              == n.(timer := None, stats := Add(n.stats, c.read(c.tick + 1) - c.read(c.tick)))
    ensures ExitRegion(EnterRegion(n, c).0, EnterRegion(n, c).1).1.tick == c.tick + 2
  {
  }

  /**
    A cancelled region records nothing: the statistics are those before the
    enter, and the exit that follows is a no-op that reads no clock.
   */
  lemma CancelThenExit(n: RegionNode, c: Clock)
    ensures CancelRegion(EnterRegion(n, c).0).stats == n.stats
    ensures ExitRegion(CancelRegion(EnterRegion(n, c).0), EnterRegion(n, c).1).0
              == n.(timer := None)
    ensures ExitRegion(CancelRegion(EnterRegion(n, c).0), EnterRegion(n, c).1).1.tick == c.tick + 1
  {
  }

  /**
    The node after `k` enter/exit pairs in a row: two clock readings per
    pair, and after at least one pair no live timer; only the timer and the
    statistics change.
   */
  function Repeat(n: RegionNode, c: Clock, k: nat): (r: (RegionNode, Clock))
    ensures r.1 == c.(tick := c.tick + 2 * k)
    ensures k > 0 ==> r.0 == n.(timer := None, stats := r.0.stats)
    ensures k == 0 ==> r.0 == n
    decreases k
  {
    if k == 0 then (n, c)
    else
      var entered := EnterRegion(n, c);
      var exited := ExitRegion(entered.0, entered.1);
      EnterExitOneSample(n, c);
      Repeat(exited.0, exited.1, k - 1)
  }

  /** The durations of `k` consecutive legs, each two readings long. */
  function Legs(c: Clock, k: nat): (r: seq<int>)
    ensures |r| == k
    ensures forall i :: 0 <= i < k ==> r[i] == c.read(c.tick + 2 * i + 1) - c.read(c.tick + 2 * i)
    decreases k
  {
    if k == 0 then []
    else [c.read(c.tick + 1) - c.read(c.tick)] + Legs(c.(tick := c.tick + 2), k - 1)
  }

  /** The first leg, then the legs after it. */
  lemma LegsCons(c: Clock, k: nat)
    requires k > 0
    ensures Legs(c, k) == [c.read(c.tick + 1) - c.read(c.tick)] + Legs(c.(tick := c.tick + 2), k - 1)
  {
  }

  /**
    Repeated enter/exit pairs accumulate the statistics of the individual
    leg durations: on a fresh node, count, total, min and max are those of
    the legs (see `Utils.CollectFresh`).
   */
  lemma {:induction false} RepeatedLegsAccumulate(n: RegionNode, c: Clock, k: nat)
    ensures Repeat(n, c, k).0.stats == Collect(n.stats, Legs(c, k))
    decreases k
  {
    if k > 0 {
      EnterExitOneSample(n, c);
      var leg := c.read(c.tick + 1) - c.read(c.tick);
      var next := n.(timer := None, stats := Add(n.stats, leg));
      var c2 := c.(tick := c.tick + 2);
      assert Repeat(n, c, k) == Repeat(next, c2, k - 1);
      RepeatedLegsAccumulate(next, c2, k - 1);
      LegsCons(c, k);
      CollectCons(n.stats, leg, Legs(c2, k - 1));
    }
  }

}
