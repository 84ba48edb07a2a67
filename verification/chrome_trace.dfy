/**
  `ChromeTraceListener` of region_profiler/chrome_trace_listener.py: turns
  the profiler's notifications into Begin ("B") and End ("E") events of a
  Chrome trace.

  The choice of events is a machine over the listener's two fields,
  `pending_begin_node` and `last_canceled_node`: a region's Begin is held
  back until something happens inside it or it exits, so that a region that
  is entered, cancelled and exited with nothing in between (the last probe
  of `iter_proxy`) leaves no trace. Rendering an event reads the region's
  timer in the profiler's tree; the file is the sequence of events written.
 */
module ChromeTrace {
  import opened Wrappers
  import opened Utils
  import opened Node
  import opened Tree
  import opened Profiler
  import opened IterProxy

  // ---------------------------------------------------------------------------
  // Event choice
  // ---------------------------------------------------------------------------

  datatype Phase = Begin | End

  /** An event the listener decides to write, before rendering. */
  datatype Mark = Mark(region: Path, phase: Phase)

  /** `pending_begin_node` and `last_canceled_node`, regions named by path. */
  datatype Choice = Choice(pending: Option<Path>, lastCanceled: Option<Path>)

  /** Both fields `None`, as after `__init__`. */
  const Idle := Choice(None, None)

  /** The held-back Begin of the pending region, if there is one. */
  function Flush(pending: Option<Path>): seq<Mark>
  {
    if pending.Some? then [Mark(pending.value, Begin)] else []
  }

  /**
    `region_entered`: an event is written exactly when a Begin was pending,
    and it is that Begin; the new region becomes pending and nothing is
    cancelled.
   */
  function OnEntered(c: Choice, region: Path): (r: (Choice, seq<Mark>))
    ensures r.1 != [] <==> c.pending.Some?
    ensures c.pending.Some? ==> r.1 == [Mark(c.pending.value, Begin)]
    ensures r.0.pending == Some(region) && r.0.lastCanceled == None
  {
    (Choice(Some(region), None), Flush(c.pending))
  }

  /**
    `region_exited`: silent exactly when the exiting region is the pending
    one and was the last cancelled (a probe dropped without a trace).
    Otherwise it writes the region's End, preceded by the pending Begin if
    there is one. No Begin stays pending; with nothing pending the fields
    stay as they are.
   */
  function OnExited(c: Choice, region: Path): (r: (Choice, seq<Mark>))
    ensures r.1 == [] <==> c.pending == Some(region) && c.lastCanceled == Some(region)
    ensures r.1 != [] ==> r.1 == Flush(c.pending) + [Mark(region, End)]
    ensures r.0.pending == None
    ensures c.pending.None? ==> r.0 == c
  {
    if c.pending.Some? then
      if c.pending == Some(region) && c.lastCanceled == c.pending then (Idle, [])
      else (Idle, [Mark(c.pending.value, Begin), Mark(region, End)])
    else (c, [Mark(region, End)])
  }

  /** `region_canceled`: remember the region; the pending Begin stays pending. */
  function OnCanceled(c: Choice, region: Path): (r: Choice)
    ensures r.pending == c.pending && r.lastCanceled == Some(region)
  {
    c.(lastCanceled := Some(region))
  }

  /**
    One notification. Only entries and exits write events, at most two;
    a cancellation keeps the pending Begin and `finalize` changes nothing.
   */
  function Next(c: Choice, n: Notice): (r: (Choice, seq<Mark>))
    ensures |r.1| <= 2
    ensures n.Canceled? ==> r.1 == [] && r.0.pending == c.pending && r.0.lastCanceled == Some(n.region)
    ensures n.Finalized? ==> r == (c, [])
    ensures n.Entered? ==> r.0.pending == Some(n.region)
    ensures n.Exited? ==> r.0.pending == None
  {
    match n
    case Entered(region) => OnEntered(c, region)
    case Exited(region) => OnExited(c, region)
    case Canceled(region) => (OnCanceled(c, region), [])
    case Finalized => (c, [])
  }

  /** A sequence of notifications, and the marks they produce in order. */
  function Run(c: Choice, ns: seq<Notice>): (Choice, seq<Mark>)
    decreases |ns|
  {
    if ns == [] then (c, [])
    else
      var first := Next(c, ns[0]);
      var rest := Run(first.0, ns[1..]);
      (rest.0, first.1 + rest.1)
  }

  /** Running two sequences is running their concatenation. */
  lemma {:induction false} RunConcat(c: Choice, a: seq<Notice>, b: seq<Notice>)
    ensures Run(c, a + b) == (Run(Run(c, a).0, b).0, Run(c, a).1 + Run(Run(c, a).0, b).1)
    decreases |a|
  {
    if a == [] {
      assert a + b == b;
      assert Run(c, a).1 + Run(c, b).1 == Run(c, b).1;
    } else {
      var first := Next(c, a[0]);
      assert (a + b)[0] == a[0];
      assert (a + b)[1..] == a[1..] + b;
      RunConcat(first.0, a[1..], b);
      var mid := Run(first.0, a[1..]);
      var last := Run(mid.0, b);
      assert Run(c, a) == (mid.0, first.1 + mid.1);
      assert Run(c, a + b) == (last.0, first.1 + (mid.1 + last.1));
      assert first.1 + (mid.1 + last.1) == (first.1 + mid.1) + last.1;
    }
  }

  /** Running one notification is taking one step. */
  lemma RunOne(c: Choice, n: Notice)
    ensures Run(c, [n]) == Next(c, n)
  {
    assert [n][1..] == [];
    assert Next(c, n).1 + [] == Next(c, n).1;
  }

  /**
    The last probe of `iter_proxy` (enter, cancel, exit with nothing in
    between) leaves no trace of itself: only a Begin already pending
    before it is flushed, and the machine ends with nothing pending.
   */
  lemma ProbeLeavesNoTrace(c: Choice, region: Path)
    ensures Run(c, [Entered(region), Canceled(region), Exited(region)]) == (Idle, Flush(c.pending))
  {
    var entered := Choice(Some(region), None);
    RunOne(c, Entered(region));
    RunConcat(c, [Entered(region)], [Canceled(region), Exited(region)]);
    CloseSpan(entered, region, true);
    assert [Entered(region)] + [Canceled(region), Exited(region)] == [Entered(region), Canceled(region), Exited(region)];
  }

  /** The notifications that end a span: a cancel if it is cancelled, then the exit. */
  function Closing(region: Path, canceled: bool): seq<Notice>
  {
    (if canceled then [Canceled(region)] else []) + [Exited(region)]
  }

  /**
    Closing a span: with nothing pending, only the End; with the span's own
    Begin still pending, nothing if cancelled and Begin, End otherwise.
   */
  lemma CloseSpan(c: Choice, region: Path, canceled: bool)
    ensures c.pending == None ==>
              Run(c, Closing(region, canceled)).0.pending == None
              && Run(c, Closing(region, canceled)).1 == [Mark(region, End)]
    ensures c == Choice(Some(region), None) ==>
              Run(c, Closing(region, canceled)).0 == Idle
              && Run(c, Closing(region, canceled)).1 == (if canceled then [] else [Mark(region, Begin), Mark(region, End)])
  {
    if canceled {
      RunConcat(c, [Canceled(region)], [Exited(region)]);
      RunOne(c, Canceled(region));
      RunOne(OnCanceled(c, region), Exited(region));
    } else {
      assert Closing(region, canceled) == [Exited(region)];
      RunOne(c, Exited(region));
    }
  }

  // ---------------------------------------------------------------------------
  // Well-bracketing over properly nested regions
  // ---------------------------------------------------------------------------

  /**
    A region entered and exited with `inner` regions in between, one after
    the other; a `canceled` region is cancelled just before its exit, as
    the last pull of `iter_proxy` does.
   */
  datatype Span = Span(region: Path, inner: seq<Span>, canceled: bool)

  /** The notifications a span sends. */
  function Notices(s: Span): seq<Notice>
    decreases s
  {
    [Entered(s.region)] + NoticesAll(s.inner) + Closing(s.region, s.canceled)
  }

  function NoticesAll(ss: seq<Span>): seq<Notice>
    decreases ss
  {
    if ss == [] then [] else Notices(ss[0]) + NoticesAll(ss[1..])
  }

  /**
    The events a span should leave: a Begin, the events of its inner
    spans, an End; nothing at all for a cancelled span with no inner span.
   */
  function Brackets(s: Span): seq<Mark>
    decreases s
  {
    if s.canceled && s.inner == [] then []
    else [Mark(s.region, Begin)] + BracketsAll(s.inner) + [Mark(s.region, End)]
  }

  function BracketsAll(ss: seq<Span>): seq<Mark>
    decreases ss
  {
    if ss == [] then [] else Brackets(ss[0]) + BracketsAll(ss[1..])
  }

  /**
    The machine writes exactly the bracket events of a span: every region
    gets a matched Begin/End pair in call order, except a cancelled one
    with nothing inside it; a cancelled region with something inside it
    (its Begin already flushed) still gets its End. Whatever Begin was
    pending before is flushed first, and none is pending after.
   */
  lemma {:induction false} SpanBrackets(c: Choice, s: Span)
    ensures Run(c, Notices(s)).0.pending == None
    ensures Run(c, Notices(s)).1 == Flush(c.pending) + Brackets(s)
    decreases s, 1
  {
    var r := s.region;
    var entered := Choice(Some(r), None);
    var tail := Closing(r, s.canceled);
    var mid := Run(entered, NoticesAll(s.inner));
    var last := Run(mid.0, tail);
    assert Run(c, Notices(s)) == (last.0, Flush(c.pending) + (mid.1 + last.1)) by {
      assert Notices(s) == [Entered(r)] + (NoticesAll(s.inner) + tail);
      RunConcat(c, [Entered(r)], NoticesAll(s.inner) + tail);
      RunOne(c, Entered(r));
      RunConcat(entered, NoticesAll(s.inner), tail);
    }
    if s.inner == [] {
      assert mid == (entered, []);
      CloseSpan(mid.0, r, s.canceled);
    } else {
      assert mid.0.pending == None && mid.1 == [Mark(r, Begin)] + BracketsAll(s.inner) by {
        SpansBrackets(entered, s.inner);
      }
      CloseSpan(mid.0, r, s.canceled);
    }
  }

  /** A non-empty run of sibling spans: the pending Begin, then each span's brackets in turn. */
  lemma {:induction false} SpansBrackets(c: Choice, ss: seq<Span>)
    requires ss != []
    ensures Run(c, NoticesAll(ss)).0.pending == None
    ensures Run(c, NoticesAll(ss)).1 == Flush(c.pending) + BracketsAll(ss)
    decreases ss
  {
    var head, rest := Notices(ss[0]), NoticesAll(ss[1..]);
    var first := Run(c, head);
    var second := Run(first.0, rest);
    assert Run(c, NoticesAll(ss)) == (second.0, first.1 + second.1) by {
      assert NoticesAll(ss) == head + rest;
      RunConcat(c, head, rest);
    }
    assert first.0.pending == None && first.1 == Flush(c.pending) + Brackets(ss[0]) by {
      SpanBrackets(c, ss[0]);
    }
    assert second.0.pending == None && second.1 == BracketsAll(ss[1..]) by {
      if ss[1..] == [] {
        assert rest == [];
      } else {
        SpansBrackets(first.0, ss[1..]);
      }
    }
    assert BracketsAll(ss) == Brackets(ss[0]) + BracketsAll(ss[1..]);
    assert first.1 + second.1 == Flush(c.pending) + (Brackets(ss[0]) + BracketsAll(ss[1..]));
  }

  /** The brackets of a list of spans, split anywhere. */
  lemma {:induction false} BracketsAllConcat(xs: seq<Span>, ys: seq<Span>)
    ensures BracketsAll(xs + ys) == BracketsAll(xs) + BracketsAll(ys)
    decreases |xs|
  {
    if xs == [] {
      assert xs + ys == ys;
    } else {
      assert (xs + ys)[0] == xs[0];
      assert (xs + ys)[1..] == xs[1..] + ys;
      BracketsAllConcat(xs[1..], ys);
    }
  }

  /** The brackets of a single span in a list. */
  lemma BracketsAllOne(s: Span)
    ensures BracketsAll([s]) == Brackets(s)
  {
    assert [s][1..] == [];
  }

  /** The calls a profiler with one listener makes for a sequence of notifications. */
  function ToListener(ns: seq<Notice>): (r: seq<ListenerCall>)
    ensures |r| == |ns|
    ensures forall i :: 0 <= i < |ns| ==> r[i] == ListenerCall(0, ns[i])
  {
    seq(|ns|, (i: int) requires 0 <= i < |ns| => ListenerCall(0, ns[i]))
  }

  /**
    With one listener, `region` sends exactly the notifications of a span:
    if its body sends those of the spans `inner` and leaves the stack as it
    found it, the whole region sends those of the uncancelled span around
    `inner`.
   */
  lemma RegionSendsSpan(p: RegionProfiler, name: string, asglobal: bool, inner: seq<Span>, body: RegionProfiler)
    requires Valid(p) && Valid(body) && p.listeners == 1 && body.listeners == 1
    requires body.stack == RegionOpen(p, name, asglobal).stack
    requires body.calls == RegionOpen(p, name, asglobal).calls + ToListener(NoticesAll(inner))
    ensures RegionClose(body).calls == p.calls + ToListener(Notices(Span(ParentPath(p, asglobal) + [name], inner, false)))
  {
    var region := ParentPath(p, asglobal) + [name];
    var open := RegionOpen(p, name, asglobal).calls;
    assert open == p.calls + ToListener([Entered(region)]) by {
      assert Broadcast(1, Entered(region)) == ToListener([Entered(region)]);
    }
    assert RegionClose(body).calls == body.calls + ToListener([Exited(region)]) by {
      assert CurrentPath(body) == region;
      assert Broadcast(1, Exited(region)) == ToListener([Exited(region)]);
    }
    SpanCalls(p.calls, region, inner);
  }

  /** One listener's calls for an uncancelled span: the entry, the inner spans' calls, the exit. */
  lemma SpanCalls(before: seq<ListenerCall>, region: Path, inner: seq<Span>)
    ensures before + ToListener([Entered(region)]) + ToListener(NoticesAll(inner)) + ToListener([Exited(region)])
            == before + ToListener(Notices(Span(region, inner, false)))
  {
    var ns := NoticesAll(inner);
    assert Notices(Span(region, inner, false)) == [Entered(region)] + ns + [Exited(region)];
    ToListenerConcat([Entered(region)], ns);
    ToListenerConcat([Entered(region)] + ns, [Exited(region)]);
  }

  /** One listener's calls for two runs of notifications are the calls for each in turn. */
  lemma ToListenerConcat(a: seq<Notice>, b: seq<Notice>)
    ensures ToListener(a + b) == ToListener(a) + ToListener(b)
  {
  }

  /**
    With one listener, a turn of `iter_proxy` sends the notifications of a
    span with nothing inside, cancelled exactly when the turn is untimed.
   */
  lemma TurnSendsSpan<T>(node: Path, src: Upstream<T>, pos: nat)
    ensures TurnCalls(1, node, src, pos) == ToListener(Notices(Span(node, [], !Timed(src, pos))))
  {
    assert NoticesAll([]) == [];
    assert Broadcast(1, Entered(node)) == ToListener([Entered(node)]);
    assert Broadcast(1, Exited(node)) == ToListener([Exited(node)]);
    assert Broadcast(1, Canceled(node)) == ToListener([Canceled(node)]);
  }

  /**
    The notifications of a whole profiling session whose root's only inner
    region is `s`: the root is entered at construction, and `finalize`
    reports its exit and then finalizes the listener.
   */
  function Session(s: Span): seq<Notice>
  {
    [Entered([])] + Notices(s) + [Exited([]), Finalized]
  }

  /** A session leaves the root's Begin, the brackets of its region, the root's End, and nothing pending. */
  lemma SessionBrackets(s: Span)
    ensures Run(Idle, Session(s)).1 == [Mark([], Begin)] + Brackets(s) + [Mark([], End)]
    ensures Run(Idle, Session(s)).0.pending == None
  {
    var root := Choice(Some([]), None);
    var inside := Run(root, Notices(s));
    var closing := [Exited([]), Finalized];
    assert Run(Idle, [Entered([])]) == (root, []) by { RunOne(Idle, Entered([])); }
    assert inside.0.pending == None && inside.1 == [Mark([], Begin)] + Brackets(s) by {
      SpanBrackets(root, s);
    }
    assert Run(inside.0, closing) == (inside.0, [Mark([], End)]) by {
      RunConcat(inside.0, [Exited([])], [Finalized]);
      assert [Exited([])] + [Finalized] == closing;
      RunOne(inside.0, Exited([]));
      RunOne(inside.0, Finalized);
    }
    assert Session(s) == [Entered([])] + (Notices(s) + closing);
    RunConcat(Idle, [Entered([])], Notices(s) + closing);
    RunConcat(root, Notices(s), closing);
  }

  /** A region's Begin and End with nothing between. */
  function Pair(region: Path): seq<Mark>
  {
    [Mark(region, Begin), Mark(region, End)]
  }

  /** A region's Begin and End around `inner`. */
  function Wrap(region: Path, inner: seq<Mark>): seq<Mark>
  {
    [Mark(region, Begin)] + inner + [Mark(region, End)]
  }

  /** Five sibling spans, the shape both loops below take. */
  lemma FiveSiblings(k0: Span, k1: Span, k2: Span, k3: Span, k4: Span)
    ensures BracketsAll([k0, k1, k2, k3, k4])
              == Brackets(k0) + Brackets(k1) + Brackets(k2) + Brackets(k3) + Brackets(k4)
  {
    assert [k0, k1, k2, k3, k4] == [k0] + [k1] + [k2] + [k3] + [k4];
    BracketsAllConcat([k0] + [k1] + [k2] + [k3], [k4]);
    BracketsAllConcat([k0] + [k1] + [k2], [k3]);
    BracketsAllConcat([k0] + [k1], [k2]);
    BracketsAllConcat([k0], [k1]);
    BracketsAllOne(k0);
    BracketsAllOne(k1);
    BracketsAllOne(k2);
    BracketsAllOne(k3);
    BracketsAllOne(k4);
  }

  /**
    Region `a` iterating `iter_proxy` over two elements as region `b`, with
    region `c` in the loop body: `b` appears twice, and its final probe, a
    cancelled region with nothing inside, leaves nothing.
   */
  lemma NodeCanceledTrace(a: Path, b: Path, c: Path)
    ensures var s := Span(a, [Span(b, [], false), Span(c, [], false), Span(b, [], false), Span(c, [], false),
                              Span(b, [], true)], false);
            Run(Idle, Session(s)).1
              == [Mark([], Begin)] + Wrap(a, Pair(b) + Pair(c) + Pair(b) + Pair(c)) + [Mark([], End)]
  {
    var s := Span(a, [Span(b, [], false), Span(c, [], false), Span(b, [], false), Span(c, [], false),
                      Span(b, [], true)], false);
    SessionBrackets(s);
    FiveSiblings(Span(b, [], false), Span(c, [], false), Span(b, [], false), Span(c, [], false), Span(b, [], true));
    assert BracketsAll(s.inner) == Pair(b) + Pair(c) + Pair(b) + Pair(c) + [];
  }

  /**
    The same loop over a generator that itself enters region `d` before
    each element and region `x` after the last: the cancelled last probe
    of `b` had `x` inside it, so its Begin was flushed and it keeps its End.
   */
  lemma ParentNodeCanceledTrace(a: Path, b: Path, c: Path, d: Path, x: Path)
    ensures var s := Span(a, [Span(b, [Span(d, [], false)], false), Span(c, [], false),
                              Span(b, [Span(d, [], false)], false), Span(c, [], false),
                              Span(b, [Span(x, [], false)], true)], false);
            Run(Idle, Session(s)).1
              == [Mark([], Begin)]
                 + Wrap(a, Wrap(b, Pair(d)) + Pair(c) + Wrap(b, Pair(d)) + Pair(c) + Wrap(b, Pair(x)))
                 + [Mark([], End)]
  {
    var bd, bx := Span(b, [Span(d, [], false)], false), Span(b, [Span(x, [], false)], true);
    var s := Span(a, [bd, Span(c, [], false), bd, Span(c, [], false), bx], false);
    SessionBrackets(s);
    FiveSiblings(bd, Span(c, [], false), bd, Span(c, [], false), bx);
    assert Brackets(bd) == Wrap(b, Pair(d)) by { BracketsAllOne(Span(d, [], false)); }
    assert Brackets(bx) == Wrap(b, Pair(x)) by { BracketsAllOne(Span(x, [], false)); }
  }

  // ---------------------------------------------------------------------------
  // Rendering and the listener
  // ---------------------------------------------------------------------------

  /** One line of the trace: `{"name": …, "ph": "B"|"E", "ts": …}`. */
  datatype Event = Event(name: string, phase: Phase, ts: int)

  /** Clock readings are in seconds; the trace is in microseconds. */
  const MicrosPerSecond := 1000000

  /**
    `_write_b_event` / `_write_e_event`: the region's name and its timer's
    begin (Begin) or end (End) stamp in microseconds. A region without a
    timer cannot be rendered (the source raises on `None.begin_ts`).
   */
  function Render(root: RegionNode, m: Mark): (r: Result<Event, string>)
    ensures r.Success? <==> At(root, m.region).Some? && At(root, m.region).value.timer.Some?
    ensures r.Success? ==> r.value.name == At(root, m.region).value.name && r.value.phase == m.phase
    ensures r.Success? && m.phase == Begin ==> r.value.ts == At(root, m.region).value.timer.value.beginTs * MicrosPerSecond
    ensures r.Success? && m.phase == End ==> r.value.ts == At(root, m.region).value.timer.value.endTs * MicrosPerSecond
  {
    match At(root, m.region)
    case None => Failure("no such region")
    case Some(node) =>
      match node.timer
      case None => Failure("region has no timer")
      case Some(t) => Success(Event(node.name, m.phase, (if m.phase == Begin then t.beginTs else t.endTs) * MicrosPerSecond))
  }

  /** Render marks in order, stopping at the first that cannot be rendered. */
  function RenderAll(root: RegionNode, ms: seq<Mark>): (r: Result<seq<Event>, string>)
    ensures r.Success? <==> forall i :: 0 <= i < |ms| ==> Render(root, ms[i]).Success?
    ensures r.Success? ==> |r.value| == |ms| && forall i :: 0 <= i < |ms| ==> r.value[i] == Render(root, ms[i]).value
  {
    if ms == [] then Success([])
    else
      var e :- Render(root, ms[0]);
      var rest :- RenderAll(root, ms[1..]);
      assert forall i :: 1 <= i < |ms| ==> ms[i] == ms[1..][i - 1];
      Success([e] + rest)
  }

  /** The listener: its two fields and the trace file, which `finalize` closes. */
  datatype Listener = Listener(choice: Choice, events: seq<Event>, closed: bool)

  /** `ChromeTraceListener(trace_filename)` after its header: nothing pending, no event. */
  const NewListener := Listener(Idle, [], false)

  /** Write rendered events; writing to the closed file fails. */
  function Write(l: Listener, evs: seq<Event>): (r: Result<Listener, string>)
    ensures r.Success? <==> !l.closed || evs == []
    ensures r.Success? ==> r.value == l.(events := l.events + evs)
  {
    if evs == [] then Success(l)
    else if l.closed then Failure("write to closed file")
    else Success(l.(events := l.events + evs))
  }

  /**
    One listener hook called by the profiler with its tree `root`:
    the choice machine decides the marks, which are rendered and written.
    `finalize` writes the closing bracket and closes the file.
   */
  function Handle(l: Listener, root: RegionNode, n: Notice): (r: Result<Listener, string>)
    ensures n.Finalized? ==> (r.Success? <==> !l.closed)
    ensures !n.Finalized? ==>
              (r.Failure? <==> RenderAll(root, Next(l.choice, n).1).Failure? || (l.closed && Next(l.choice, n).1 != []))
    ensures n.Finalized? && r.Success? ==> r.value == l.(closed := true)
    ensures !n.Finalized? && r.Success? ==>
              && r.value.choice == Next(l.choice, n).0
              && RenderAll(root, Next(l.choice, n).1).Success?
              && r.value.events == l.events + RenderAll(root, Next(l.choice, n).1).value
              && r.value.closed == l.closed
  {
    if n.Finalized? then
      if l.closed then Failure("write to closed file") else Success(l.(closed := true))
    else
      var step := Next(l.choice, n);
      var evs :- RenderAll(root, step.1);
      var written :- Write(l, evs);
      Success(written.(choice := step.0))
  }

  /**
    With the node module as shown, exiting drops the region's timer before
    the listeners are told, so the End of the region just exited cannot be
    rendered from the tree.
   */
  lemma ExitedRegionCannotRenderEnd(p: RegionProfiler)
    requires Valid(p)
    ensures Render(ExitCurrent(p).root, Mark(CurrentPath(p), End)).Failure?
  {
  }
  /**
    The root is never entered, so it has no timer and its Begin cannot be
    rendered from the tree `__init__` builds.
   */
  lemma RootBeginCannotRender(cls: TimerClass, listeners: nat, clock: Clock)
    ensures Render(Init(cls, listeners, clock).root, Mark([], Begin)).Failure?
  {
  }

  /**
    A fresh listener told that the root was entered writes nothing and holds
    the root's Begin pending; with the root still untimed, the next entry
    must write that Begin, and the hook fails.
   */
  lemma FreshListenerFailsOnFirstRegion(tree: RegionNode, region: Path)
    requires tree.timer.None?
    ensures Handle(NewListener, tree, Entered([])) == Success(Listener(Choice(Some([]), None), [], false))
    ensures Handle(Handle(NewListener, tree, Entered([])).value, tree, Entered(region)).Failure?
  {
    assert Next(Choice(Some([]), None), Entered(region)).1 == [Mark([], Begin)];
    assert Render(tree, Mark([], Begin)).Failure?;
  }
}
