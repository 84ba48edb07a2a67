/**
  The profiler of region_profiler/profiler.py: the root node, the stack of
  open regions and the notifications sent to listeners.

  The stack holds paths from the root (see module Tree) where the source
  holds node references. Listeners are outside code: the profiler records,
  in order, every call it makes on them.
 */
module Profiler {
  import opened Wrappers
  import opened Utils
  import opened Node
  import opened Tree

  /** `RegionProfiler.ROOT_NODE_NAME`. */
  const RootNodeName: string := "<main>"

  /** A listener hook: `region_entered`, `region_exited`, `region_canceled`, `finalize`. */
  datatype Notice = Entered(region: Path) | Exited(region: Path) | Canceled(region: Path) | Finalized

  /** One call of a hook on the listener at index `listener`. */
  datatype ListenerCall = ListenerCall(listener: nat, notice: Notice)

  datatype RegionProfiler = RegionProfiler(
    root: RegionNode,
    stack: seq<Path>,
    clock: Clock,
    listeners: nat,
    calls: seq<ListenerCall>)

  /** The stack is never empty, starts at the root and holds only nodes of the tree. */
  ghost predicate Valid(p: RegionProfiler) {
    && |p.stack| >= 1
    && p.stack[0] == []
    && forall i :: 0 <= i < |p.stack| ==> Exists(p.root, p.stack[i])
  }

  /** The same hook called on every listener in registration order. */
  function Broadcast(listeners: nat, notice: Notice): (r: seq<ListenerCall>)
    ensures |r| == listeners
    ensures forall i :: 0 <= i < listeners ==> r[i] == ListenerCall(i, notice)
  {
    seq(listeners, (i: int) requires 0 <= i < listeners => ListenerCall(i, notice))
  }

  /**
    `RegionProfiler.__init__`: a fresh root as the only open region, and
    every listener told that the root was entered.
   */
  function Init(cls: TimerClass, listeners: nat, clock: Clock): (r: RegionProfiler)
    ensures Valid(r)
    ensures r.stack == [[]] && At(r.root, CurrentPath(r)) == Some(r.root)
    ensures r.root == NewNode(RootNodeName, cls)
    ensures r.calls == Broadcast(listeners, Entered([]))
    ensures r.clock == clock
  {
    RegionProfiler(NewNode(RootNodeName, cls), [[]], clock, listeners, Broadcast(listeners, Entered([])))
  }

  /** The path of `current_node`, the top of the stack. */
  function CurrentPath(p: RegionProfiler): Path
    requires |p.stack| >= 1
  {
    p.stack[|p.stack| - 1]
  }

  /** `current_node`: the node on top of the stack. */
  function CurrentNode(p: RegionProfiler): (r: RegionNode)
    requires Valid(p)
    ensures At(p.root, p.stack[|p.stack| - 1]) == Some(r)
  {
    At(p.root, CurrentPath(p)).value
  }

  /** `_enter_current_region`: enter the top node and notify every listener. */
  function EnterCurrent(p: RegionProfiler): (r: RegionProfiler)
    requires Valid(p)
    ensures Valid(r) && Covers(p.root, r.root)
    ensures r.stack == p.stack && r.listeners == p.listeners
    ensures r.root == Put(p.root, CurrentPath(p), EnterRegion(CurrentNode(p), p.clock).0)
    ensures At(r.root, CurrentPath(p)) == Some(EnterRegion(CurrentNode(p), p.clock).0)
    ensures r.clock == p.clock.Advance()
    ensures r.calls == p.calls + Broadcast(p.listeners, Entered(CurrentPath(p)))
  {
    var path := CurrentPath(p);
    var entered := EnterRegion(CurrentNode(p), p.clock);
    PutSameChildrenCovers(p.root, path, entered.0);
    p.(root := Put(p.root, path, entered.0), clock := entered.1,
       calls := p.calls + Broadcast(p.listeners, Entered(path)))
  }

  /** `_exit_current_region`: exit the top node and notify every listener. */
  function ExitCurrent(p: RegionProfiler): (r: RegionProfiler)
    requires Valid(p)
    ensures Valid(r) && Covers(p.root, r.root)
    ensures r.stack == p.stack && r.listeners == p.listeners
    ensures r.root == Put(p.root, CurrentPath(p), ExitRegion(CurrentNode(p), p.clock).0)
    ensures At(r.root, CurrentPath(p)) == Some(ExitRegion(CurrentNode(p), p.clock).0)
    ensures r.clock == ExitRegion(CurrentNode(p), p.clock).1
    ensures r.calls == p.calls + Broadcast(p.listeners, Exited(CurrentPath(p)))
  {
    var path := CurrentPath(p);
    var exited := ExitRegion(CurrentNode(p), p.clock);
    PutSameChildrenCovers(p.root, path, exited.0);
    p.(root := Put(p.root, path, exited.0), clock := exited.1,
       calls := p.calls + Broadcast(p.listeners, Exited(path)))
  }

  /** `_cancel_current_region`: cancel the top node and notify every listener. */
  function CancelCurrent(p: RegionProfiler): (r: RegionProfiler)
    requires Valid(p)
    ensures Valid(r) && Covers(p.root, r.root)
    ensures r.stack == p.stack && r.listeners == p.listeners && r.clock == p.clock
    ensures r.root == Put(p.root, CurrentPath(p), CancelRegion(CurrentNode(p)))
    ensures At(r.root, CurrentPath(p)) == Some(CancelRegion(CurrentNode(p)))
    ensures r.calls == p.calls + Broadcast(p.listeners, Canceled(CurrentPath(p)))
  {
    var path := CurrentPath(p);
    var canceled := CancelRegion(CurrentNode(p));
    PutSameChildrenCovers(p.root, path, canceled);
    p.(root := Put(p.root, path, canceled),
       calls := p.calls + Broadcast(p.listeners, Canceled(path)))
  }

  /** The parent a new region hangs from: the root for a global region, else the current node. */
  function ParentPath(p: RegionProfiler, asglobal: bool): Path
    requires |p.stack| >= 1
  {
    if asglobal then [] else CurrentPath(p)
  }

  /**
    `parent.get_child(name)` on the profiler's tree: the child called `name`
    of the parent, created if needed. Returns the profiler and the child's path.
   */
  function Resolve(p: RegionProfiler, name: string, asglobal: bool): (r: (RegionProfiler, Path))
    requires Valid(p)
    ensures Valid(r.0) && Covers(p.root, r.0.root)
    ensures r.1 == ParentPath(p, asglobal) + [name]
    ensures r.0.root == Put(p.root, ParentPath(p, asglobal), GetChild(At(p.root, ParentPath(p, asglobal)).value, name, None).0)
    ensures At(r.0.root, r.1) == Some(GetChild(At(p.root, ParentPath(p, asglobal)).value, name, None).1)
    ensures r.0 == p.(root := r.0.root)
  {
    var parentPath := ParentPath(p, asglobal);
    assert Exists(p.root, p.stack[0]);
    var parent := At(p.root, parentPath).value;
    var got := GetChild(parent, name, None);
    var root := Put(p.root, parentPath, got.0);
    assert Covers(parent, got.0) by {
      if HasChild(parent, name) {
        SameChildrenCovers(parent, got.0);
      } else {
        AppendChildCovers(parent, got.1);
      }
    }
    PutCovers(p.root, parentPath, got.0);
    AtConcat(root, parentPath, [name]);
    assert At(got.0, [name]) == Some(got.1);
    (p.(root := root), parentPath + [name])
  }

  /** `node_stack.append(node)`. */
  function Push(p: RegionProfiler, path: Path): (r: RegionProfiler)
    requires Valid(p) && Exists(p.root, path)
    ensures Valid(r) && CurrentPath(r) == path
    ensures r == p.(stack := p.stack + [path])
  {
    p.(stack := p.stack + [path])
  }

  /** `node_stack.pop()`, never removing the root. */
  function Pop(p: RegionProfiler): (r: RegionProfiler)
    requires Valid(p) && |p.stack| >= 2
    ensures Valid(r)
    ensures r == p.(stack := p.stack[..|p.stack| - 1])
  {
    p.(stack := p.stack[..|p.stack| - 1])
  }

  /**
    The part of `region(name, asglobal)` before its `yield`: push the child
    of the root (global) or of the current node, enter it, notify.
   */
  function RegionOpen(p: RegionProfiler, name: string, asglobal: bool): (r: RegionProfiler)
    requires Valid(p)
    ensures Valid(r) && Covers(p.root, r.root)
    ensures r.stack == p.stack + [ParentPath(p, asglobal) + [name]]
    ensures r.root == Put(Resolve(p, name, asglobal).0.root, ParentPath(p, asglobal) + [name],
                          EnterRegion(GetChild(At(p.root, ParentPath(p, asglobal)).value, name, None).1, p.clock).0)
    ensures CurrentNode(r).name == name
    ensures CurrentNode(r).timer.Some? && CurrentNode(r).timer.value.running
    ensures CurrentNode(r).timer.value.beginTs == p.clock.Now()
    ensures CurrentNode(r).stats == GetChild(At(p.root, ParentPath(p, asglobal)).value, name, None).1.stats
    ensures r.clock == p.clock.Advance() && r.listeners == p.listeners
    ensures r.calls == p.calls + Broadcast(p.listeners, Entered(ParentPath(p, asglobal) + [name]))
  {
    var resolved := Resolve(p, name, asglobal);
    EnterCurrent(Push(resolved.0, resolved.1))
  }

  /** The part of `region` after its `yield`: exit the current node, notify, pop. */
  function RegionClose(p: RegionProfiler): (r: RegionProfiler)
    requires Valid(p) && |p.stack| >= 2
    ensures Valid(r) && Covers(p.root, r.root)
    ensures r.stack == p.stack[..|p.stack| - 1] && r.listeners == p.listeners
    ensures r.root == Put(p.root, CurrentPath(p), ExitRegion(CurrentNode(p), p.clock).0)
    ensures At(r.root, CurrentPath(p)) == Some(ExitRegion(CurrentNode(p), p.clock).0)
    ensures r.clock == ExitRegion(CurrentNode(p), p.clock).1
    ensures r.calls == p.calls + Broadcast(p.listeners, Exited(CurrentPath(p)))
  {
    Pop(ExitCurrent(p))
  }

  /**
    `region` brackets its body: whatever the body does, as long as it
    completes normally with the stack as it found it, closing the region
    restores the stack the caller had.
   */
  lemma RegionRestoresStack(p: RegionProfiler, name: string, asglobal: bool, body: RegionProfiler)
    requires Valid(p) && Valid(body)
    requires body.stack == RegionOpen(p, name, asglobal).stack
    ensures RegionClose(body).stack == p.stack
  {
    var s := p.stack + [ParentPath(p, asglobal) + [name]];
    assert s[..|s| - 1] == p.stack;
  }

  /** Opening a region on a fresh profiler makes it the root's only child. */
  lemma OpenOnFresh(cls: TimerClass, listeners: nat, clock: Clock, name: string)
    ensures var r := RegionOpen(Init(cls, listeners, clock), name, false);
            r.stack == [[], [name]] && r.root.children == [EnterRegion(NewNode(name, cls), clock).0]
  {
    var p := Init(cls, listeners, clock);
    var resolved := Resolve(p, name, false);
    assert [] + [name] == [name];
    assert resolved.0.root.children == [NewNode(name, cls)];
    assert IndexOf(resolved.0.root.children, name) == Some(0);
  }

  /** Opening a region inside the root's only child, which has no children yet. */
  lemma OpenInsideOnly(p: RegionProfiler, a: RegionNode, name: string)
    requires Valid(p) && p.stack == [[], [a.name]] && p.root.children == [a] && a.children == []
    ensures var r := RegionOpen(p, name, false);
            && r.stack == [[], [a.name], [a.name, name]]
            && r.root.children == [a.(children := [EnterRegion(NewNode(name, a.timerCls), p.clock).0])]
  {
    assert IndexOf(p.root.children, a.name) == Some(0);
    assert [a.name][1..] == [];
    assert At(p.root, [a.name]) == Some(a);
    var b0 := NewNode(name, a.timerCls);
    var resolved := Resolve(p, name, false);
    assert [a.name] + [name] == [a.name, name];
    assert GetChild(a, name, None).0 == a.(children := [b0]);
    assert resolved.0.root == Put(p.root, [a.name], a.(children := [b0]));
    assert resolved.0.root.children == [a][0 := a.(children := [b0])];
    assert IndexOf(resolved.0.root.children, a.name) == Some(0);
    var a1 := a.(children := [b0]);
    var b1 := EnterRegion(b0, p.clock).0;
    assert [a.name, name][1..] == [name] && [name][1..] == [];
    assert IndexOf(a1.children, name) == Some(0);
    assert Put(a1, [name], b1) == a1.(children := [b1]);
    assert Put(resolved.0.root, [a.name, name], b1) == resolved.0.root.(children := [a1.(children := [b1])]);
  }

  /** Closing the region open inside the root's only child. */
  lemma CloseInsideOnly(p: RegionProfiler, a: RegionNode, b: RegionNode)
    requires Valid(p) && p.stack == [[], [a.name], [a.name, b.name]] && p.root.children == [a] && a.children == [b]
    ensures var r := RegionClose(p);
            r.stack == [[], [a.name]] && r.root.children == [a.(children := [ExitRegion(b, p.clock).0])]
  {
    assert IndexOf(p.root.children, a.name) == Some(0);
    assert IndexOf(a.children, b.name) == Some(0);
    assert [a.name, b.name][1..] == [b.name] && [b.name][1..] == [];
    assert At(a, [b.name]) == Some(b);
    assert At(p.root, [a.name, b.name]) == Some(b);
    assert CurrentNode(p) == b;
    var b1 := ExitRegion(b, p.clock).0;
    assert Put(a, [b.name], b1) == a.(children := [b1]);
    assert Put(p.root, [a.name, b.name], b1) == p.root.(children := [a.(children := [b1])]);
  }

  /** Closing the root's only child. */
  lemma CloseOnly(p: RegionProfiler, a: RegionNode)
    requires Valid(p) && p.stack == [[], [a.name]] && p.root.children == [a]
    ensures var r := RegionClose(p);
            r.stack == [[]] && r.root.children == [ExitRegion(a, p.clock).0]
  {
    assert IndexOf(p.root.children, a.name) == Some(0);
    assert [a.name][1..] == [];
    assert At(p.root, [a.name]) == Some(a);
    assert CurrentNode(p) == a;
  }

  /**
    Two nested regions on a fresh profiler: the root then has one child,
    the outer region, whose only child is the inner region, which has no
    children; neither is left with a live timer.
   */
  lemma NestedRegionsShape(cls: TimerClass, listeners: nat, clock: Clock, outer: string, inner: string)
    ensures var p1 := RegionOpen(Init(cls, listeners, clock), outer, false);
            var root := RegionClose(RegionClose(RegionOpen(p1, inner, false))).root;
            && |root.children| == 1 && root.children[0].name == outer && root.children[0].timer.None?
            && |root.children[0].children| == 1 && root.children[0].children[0].name == inner
            && root.children[0].children[0].timer.None? && root.children[0].children[0].children == []
  {
    var p1 := RegionOpen(Init(cls, listeners, clock), outer, false);
    OpenOnFresh(cls, listeners, clock, outer);
    var a := p1.root.children[0];
    var p2 := RegionOpen(p1, inner, false);
    OpenInsideOnly(p1, a, inner);
    var a2 := p2.root.children[0];
    var p3 := RegionClose(p2);
    CloseInsideOnly(p2, a2, a2.children[0]);
    CloseOnly(p3, p3.root.children[0]);
  }

  /** The calls `finalize` makes: each listener in turn is told the root exited, then finalized. */
  function FinalizeCalls(listeners: nat): (r: seq<ListenerCall>)
    ensures |r| == 2 * listeners
    ensures forall i :: 0 <= i < listeners ==>
              r[2 * i] == ListenerCall(i, Exited([])) && r[2 * i + 1] == ListenerCall(i, Finalized)
    decreases listeners
  {
    if listeners == 0 then []
    else
      var before := FinalizeCalls(listeners - 1);
      var r := before + [ListenerCall(listeners - 1, Exited([])), ListenerCall(listeners - 1, Finalized)];
      assert forall i :: 0 <= i < listeners - 1 ==> r[2 * i] == before[2 * i] && r[2 * i + 1] == before[2 * i + 1];
      r
  }

  /**
    `finalize`: exit the root region, then, listener by listener, report the
    root's exit and finalize the listener. The stack is left alone.
   */
  function Finalize(p: RegionProfiler): (r: RegionProfiler)
    requires Valid(p)
    ensures Valid(r) && Covers(p.root, r.root)
    ensures r.root == ExitRegion(p.root, p.clock).0 && r.clock == ExitRegion(p.root, p.clock).1
    ensures r.stack == p.stack && r.listeners == p.listeners
    ensures r.calls == p.calls + FinalizeCalls(p.listeners)
  {
    var exited := ExitRegion(p.root, p.clock);
    SameChildrenCovers(p.root, exited.0);
    assert forall i :: 0 <= i < |p.stack| ==> Exists(exited.0, p.stack[i]);
    p.(root := exited.0, clock := exited.1, calls := p.calls + FinalizeCalls(p.listeners))
  }

  // ---------------------------------------------------------------------------
  // func
  // ---------------------------------------------------------------------------

  /**
    The decorator `func(name, asglobal)` returns, reduced to its closure
    variable `name`, which every function it wraps shares.
   */
  datatype Decorator = Decorator(name: Option<string>, asglobal: bool)

  /**
    Applying the decorator as the source writes it: the closure's `name`
    is rebound to the given name or the function's own, with "()" appended.
    The wrapped function keeps no name of its own.
   */
  function ApplyAsWritten(d: Decorator, fnName: string): (r: Decorator)
    ensures r.asglobal == d.asglobal && r.name.Some?
    ensures |r.name.value| >= 2 && r.name.value[|r.name.value| - 2..] == "()"
    ensures r.name.value[..|r.name.value| - 2] == d.name.GetOr(fnName)
  {
    var name := d.name.GetOr(fnName) + "()";
    d.(name := Some(name))
  }

  /**
    Calling a function wrapped by the decorator as written: the region is
    named by the closure's `name` as it is at the time of the call.
   */
  function CallAsWritten(p: RegionProfiler, d: Decorator): (r: RegionProfiler)
    requires Valid(p) && d.name.Some?
    ensures Valid(r) && r.stack == p.stack + [ParentPath(p, d.asglobal) + [d.name.value]]
    ensures CurrentNode(r).name == d.name.value
  {
    RegionOpen(p, d.name.value, d.asglobal)
  }

  /**
    One decorator from `func()` applied to `f` and then to `g`: a call of
    `f` between the two applications enters "f()", but once `g` is
    decorated, calls of `f` and of `g` both enter "f()()", so `f`'s own
    region changes name.
   */
  lemma DecoratorReuseRenames(p: RegionProfiler, asglobal: bool, f: string, g: string)
    requires Valid(p)
    ensures var afterF := ApplyAsWritten(Decorator(None, asglobal), f);
            var afterG := ApplyAsWritten(afterF, g);
            && CurrentNode(CallAsWritten(p, afterF)).name == f + "()"
            && CurrentNode(CallAsWritten(p, afterG)).name == f + "()()"
            && CurrentNode(CallAsWritten(p, afterG)).name != Decorate(Decorator(None, asglobal), f)
  {
    var afterF := ApplyAsWritten(Decorator(None, asglobal), f);
    assert afterF.name.value == f + "()";
    var afterG := ApplyAsWritten(afterF, g);
    assert afterG.name.value == f + "()()";
  }

  /**
    The region name of a decorated function: the given name or else the
    function's name, followed by "()", whatever the decorator was applied
    to before.
   */
  function Decorate(d: Decorator, fnName: string): (r: string)
    ensures |r| >= 2 && r[|r| - 2..] == "()"
    ensures d.name.Some? ==> r[..|r| - 2] == d.name.value
    ensures d.name.None? ==> r[..|r| - 2] == fnName
  {
    d.name.GetOr(fnName) + "()"
  }

  /**
    The first application of a decorator names its region as the corrected
    definition does: the two differ only once a decorator is reused.
   */
  lemma FirstUseAgrees(d: Decorator, fnName: string)
    ensures ApplyAsWritten(d, fnName).name == Some(Decorate(d, fnName))
  {
  }

  /**
    Entering a decorated function (`wrapped`): the region of `Decorate`
    below the root or the current node is pushed and entered.
   */
  function FuncEnter(p: RegionProfiler, d: Decorator, fnName: string): (r: RegionProfiler)
    requires Valid(p)
    ensures Valid(r) && Covers(p.root, r.root)
    ensures r.stack == p.stack + [ParentPath(p, d.asglobal) + [Decorate(d, fnName)]]
    ensures CurrentNode(r).name == Decorate(d, fnName)
    ensures CurrentNode(r).timer.Some? && CurrentNode(r).timer.value.running
  {
    RegionOpen(p, Decorate(d, fnName), d.asglobal)
  }
}
