/**
 * The lifecycle of one ScopeKit behaviour: the tri-state activity value it
 * derives from its host, the dispatcher that turns each change of that value
 * into listener calls, and the callbacks those calls fire.
 *
 * An independent reference for the dispatcher is the lifecycle automaton
 * (`Phase`, `Next`, `Run`): a behaviour may only be attached while detached,
 * activated while attached, and so on. The lemmas below show that every row of
 * the dispatcher's table walks the automaton from the old state to the new one,
 * so the callbacks a behaviour receives always form a well-bracketed lifecycle.
 */
module Lifecycle {
  import opened Results

  datatype ActivityState = Detached | Attached | Active

  /** The state a behaviour publishes, given whether it has a host and which
      state its host publishes. Detached exactly when it has no host; active
      exactly when its host is active. */
  function Derive(isDirectlyDetached: bool, hostState: ActivityState): (s: ActivityState)
    ensures s == Detached <==> isDirectlyDetached
    ensures s == Active <==> !isDirectlyDetached && hostState == Active
    ensures s == Attached <==> !isDirectlyDetached && hostState != Active
  {
    match (isDirectlyDetached, hostState)
    case (true, _) => Detached
    case (false, Active) => Active
    case (false, _) => Attached
  }

  /** The four listener calls the lifecycle switch makes. */
  datatype Step = WillAttachStep | ActivateStep | DeactivateStep | DidDetachStep

  /** What a behaviour observes: its overridable hooks, plus the two moments at
      which its activation holder is filled (`Stored`) and emptied (`Released`). */
  datatype Event =
    | WillAttach
    | WillActivate | Stored | DidActivate
    | WillDeactivate | Released | DidDeactivate
    | DidDetach

  /** The lifecycle switch over (previous, current). `None` is its default
      branch, the "unexpected state transition" assertion failure. */
  function Table(previous: Option<ActivityState>, current: ActivityState): (r: Option<seq<Step>>)
    ensures r.Some? <==> (previous == None && current == Detached)
                         || (previous.Some? && previous.value != current)
  {
    match (previous, current)
    case (None, Detached) => Some([])
    case (Some(Detached), Attached) => Some([WillAttachStep])
    case (Some(Detached), Active) => Some([WillAttachStep, ActivateStep])
    case (Some(Attached), Active) => Some([ActivateStep])
    case (Some(Active), Attached) => Some([DeactivateStep])
    case (Some(Active), Detached) => Some([DeactivateStep, DidDetachStep])
    case (Some(Attached), Detached) => Some([DidDetachStep])
    case _ => None
  }

  /** The events one listener call produces: `activate` runs `willActivate`,
      stores what it produced, then runs `didActivate`; `deactivate` runs
      `willDeactivate`, resets the holder, then runs `didDeactivate`. */
  function Expand(step: Step): seq<Event>
  {
    match step
    case WillAttachStep => [WillAttach]
    case ActivateStep => [WillActivate, Stored, DidActivate]
    case DeactivateStep => [WillDeactivate, Released, DidDeactivate]
    case DidDetachStep => [DidDetach]
  }

  function ExpandAll(steps: seq<Step>): seq<Event>
  {
    if steps == [] then [] else Expand(steps[0]) + ExpandAll(steps[1..])
  }

  /** The events fired when the published state moves from `a` to `b`; none
      when it does not move, because duplicates are removed before the switch. */
  function Hooks(a: ActivityState, b: ActivityState): seq<Event>
  {
    if a == b then [] else ExpandAll(Table(Some(a), b).value)
  }

  /** Every row of the lifecycle switch, as the source lists it. */
  lemma {:induction false} TableRows()
    ensures Table(None, Detached) == Some([])
    ensures Hooks(Detached, Attached) == [WillAttach]
    ensures Hooks(Detached, Active) == [WillAttach, WillActivate, Stored, DidActivate]
    ensures Hooks(Attached, Active) == [WillActivate, Stored, DidActivate]
    ensures Hooks(Active, Attached) == [WillDeactivate, Released, DidDeactivate]
    ensures Hooks(Active, Detached) == [WillDeactivate, Released, DidDeactivate, DidDetach]
    ensures Hooks(Attached, Detached) == [DidDetach]
  {
  }

  // ---------------------------------------------------------------------------
  // The lifecycle automaton: the reference the dispatcher is checked against.

  /** Where a behaviour is in its lifecycle: settled in a state, or part-way
      through an activation or a deactivation. */
  datatype Phase = Settled(state: ActivityState) | Activating(stored: bool) | Deactivating(released: bool)

  function Next(p: Phase, e: Event): Option<Phase>
  {
    match (p, e)
    case (Settled(Detached), WillAttach) => Some(Settled(Attached))
    case (Settled(Attached), WillActivate) => Some(Activating(false))
    case (Activating(false), Stored) => Some(Activating(true))
    case (Activating(true), DidActivate) => Some(Settled(Active))
    case (Settled(Active), WillDeactivate) => Some(Deactivating(false))
    case (Deactivating(false), Released) => Some(Deactivating(true))
    case (Deactivating(true), DidDeactivate) => Some(Settled(Attached))
    case (Settled(Attached), DidDetach) => Some(Settled(Detached))
    case _ => None
  }

  /** Runs the automaton over a sequence of events; `None` when some event is
      not allowed where it occurs. */
  function Run(p: Phase, es: seq<Event>): Option<Phase>
    decreases |es|
  {
    if es == [] then Some(p)
    else match Next(p, es[0])
      case None => None
      case Some(q) => Run(q, es[1..])
  }

  lemma {:induction false} RunAppend(p: Phase, a: seq<Event>, b: seq<Event>)
    ensures Run(p, a + b) == match Run(p, a) case None => None case Some(q) => Run(q, b)
    decreases |a|
  {
    if a == [] {
      assert a + b == b;
    } else {
      assert (a + b)[0] == a[0];
      assert (a + b)[1..] == a[1..] + b;
      match Next(p, a[0])
      case None =>
      case Some(q) => RunAppend(q, a[1..], b);
    }
  }

  /** Each row of the switch takes the automaton from the old state straight to
      the new one: no state is skipped in the callbacks, even where the
      published value jumps over one. */
  lemma {:induction false} HooksDrive(a: ActivityState, b: ActivityState)
    ensures Run(Settled(a), Hooks(a, b)) == Some(Settled(b))
  {
    TableRows();
    match (a, b)
    case (Detached, Attached) =>
    case (Detached, Active) =>
      assert Run(Settled(Detached), [WillAttach, WillActivate, Stored, DidActivate])
          == Run(Settled(Attached), [WillActivate, Stored, DidActivate]);
    case (Attached, Active) =>
      assert Run(Settled(Attached), [WillActivate, Stored, DidActivate])
          == Run(Activating(false), [Stored, DidActivate]);
    case (Active, Attached) =>
      assert Run(Settled(Active), [WillDeactivate, Released, DidDeactivate])
          == Run(Deactivating(false), [Released, DidDeactivate]);
    case (Active, Detached) =>
      assert Run(Settled(Active), [WillDeactivate, Released, DidDeactivate, DidDetach])
          == Run(Deactivating(false), [Released, DidDeactivate, DidDetach]);
    case (Attached, Detached) =>
    case _ =>
  }

  /** Two runs compose: if the callbacks so far settle in `a`, adding the
      callbacks of a move from `a` to `b` settles in `b`. */
  lemma {:induction false} HooksExtend(es: seq<Event>, a: ActivityState, b: ActivityState)
    requires Run(Settled(Detached), es) == Some(Settled(a))
    ensures Run(Settled(Detached), es + Hooks(a, b)) == Some(Settled(b))
  {
    RunAppend(Settled(Detached), es, Hooks(a, b));
    HooksDrive(a, b);
  }

  /** If two logs both settle, and the first is a prefix of the second, the
      part added walks the automaton from the first state to the second. */
  lemma {:induction false} SuffixWalks(old_: seq<Event>, new_: seq<Event>, a: ActivityState, b: ActivityState)
    requires old_ <= new_
    requires Run(Settled(Detached), old_) == Some(Settled(a))
    requires Run(Settled(Detached), new_) == Some(Settled(b))
    ensures Run(Settled(a), new_[|old_|..]) == Some(Settled(b))
  {
    assert new_ == old_ + new_[|old_|..];
    RunAppend(Settled(Detached), old_, new_[|old_|..]);
  }

  function Count(es: seq<Event>, e: Event): nat
    decreases |es|
  {
    if es == [] then 0 else (if es[0] == e then 1 else 0) + Count(es[1..], e)
  }

  /** 1 inside an activation window (from `willActivate` to `willDeactivate`). */
  function OpenWindows(p: Phase): nat
  {
    match p
    case Settled(Active) => 1
    case Activating(_) => 1
    case _ => 0
  }

  /** 1 while attached to a host (from `willAttach` to `didDetach`). */
  function OpenAttachments(p: Phase): nat
  {
    if p == Settled(Detached) then 0 else 1
  }

  /** `activate` and `deactivate` bracket the activation window, and `willAttach`
      and `didDetach` bracket the attachment: along any allowed run the
      openings and closings balance, up to the windows still open. */
  lemma {:induction false} Bracketed(p: Phase, es: seq<Event>, q: Phase)
    requires Run(p, es) == Some(q)
    ensures Count(es, WillActivate) + OpenWindows(p) == Count(es, WillDeactivate) + OpenWindows(q)
    ensures Count(es, WillAttach) + OpenAttachments(p) == Count(es, DidDetach) + OpenAttachments(q)
    decreases |es|
  {
    if es != [] {
      var p' := Next(p, es[0]).value;
      Bracketed(p', es[1..], q);
    }
  }

  // ---------------------------------------------------------------------------
  // The published stream: duplicates removed, then paired with the previous
  // value (the scan), then mapped through the switch (the sink).

  /** `removeDuplicates`: drops every value equal to the one just before it. */
  function Dedup(xs: seq<ActivityState>): (r: seq<ActivityState>)
    ensures |r| <= |xs|
    ensures |r| == 0 <==> |xs| == 0
    ensures |xs| > 0 ==> r[0] == xs[0] && r[|r| - 1] == xs[|xs| - 1]
    ensures forall i | 0 < i < |r| :: r[i - 1] != r[i]
    decreases |xs|
  {
    if |xs| <= 1 then xs
    else
      var r := Dedup(xs[..|xs| - 1]);
      if r[|r| - 1] == xs[|xs| - 1] then r else r + [xs[|xs| - 1]]
  }

  /** `i` starts a run of equal values in `xs`: it is the first value, or
      differs from the one before it. */
  predicate ChangeAt(xs: seq<ActivityState>, i: nat)
    requires i < |xs|
  {
    i == 0 || xs[i - 1] != xs[i]
  }

  /** The positions `f` of `xs` are increasing and hold the values of `r`,
      and a position is among them exactly when a run starts there. */
  predicate KeptAt(xs: seq<ActivityState>, r: seq<ActivityState>, f: seq<nat>)
  {
    && |f| == |r|
    && (forall j | 0 <= j < |f| :: f[j] < |xs| && r[j] == xs[f[j]])
    && (forall j, k | 0 <= j < k < |f| :: f[j] < f[k])
    && (forall i | 0 <= i < |xs| :: i in f <==> ChangeAt(xs, i))
  }

  /** `removeDuplicates` keeps exactly the values that start a run, in
      order: the kept values are `xs` at increasing positions `f`, and a
      position is among `f` exactly when a run starts there. */
  lemma {:induction false} DedupKeepsChanges(xs: seq<ActivityState>) returns (f: seq<nat>)
    ensures |f| == |Dedup(xs)|
    ensures forall j | 0 <= j < |f| :: f[j] < |xs| && Dedup(xs)[j] == xs[f[j]]
    ensures forall j, k | 0 <= j < k < |f| :: f[j] < f[k]
    ensures forall i | 0 <= i < |xs| :: i in f <==> ChangeAt(xs, i)
    decreases |xs|
  {
    if |xs| <= 1 {
      f := if xs == [] then [] else [0];
    } else {
      var g := DedupKeepsChanges(xs[..|xs| - 1]);
      f := KeptStep(xs, g);
    }
  }

  /** One more value either repeats the last one, and is dropped, or starts
      a run, and is kept. */
  lemma KeptStep(xs: seq<ActivityState>, g: seq<nat>) returns (f: seq<nat>)
    requires |xs| > 1 && KeptAt(xs[..|xs| - 1], Dedup(xs[..|xs| - 1]), g)
    ensures KeptAt(xs, Dedup(xs), f)
  {
    var last := |xs| - 1;
    var p := xs[..last];
    var r := Dedup(p);
    assert r[|r| - 1] == xs[last - 1];
    if xs[last - 1] == xs[last] {
      assert Dedup(xs) == r;
      f := g;
    } else {
      assert Dedup(xs) == r + [xs[last]];
      f := g + [last];
    }
    forall i | 0 <= i < |xs| ensures i in f <==> ChangeAt(xs, i) {
      if i < last {
        assert ChangeAt(xs, i) == ChangeAt(p, i);
        assert i in f <==> i in g;
      }
    }
  }

  /** The lifecycle sink: each value is paired with the one before it and the
      pair is mapped through the switch. `None` when the switch reaches its
      default branch. */
  function Sink(previous: Option<ActivityState>, xs: seq<ActivityState>): Option<seq<Event>>
    decreases |xs|
  {
    if xs == [] then Some([])
    else match Table(previous, xs[0])
      case None => None
      case Some(steps) =>
        match Sink(Some(xs[0]), xs[1..])
        case None => None
        case Some(rest) => Some(ExpandAll(steps) + rest)
  }

  lemma {:induction false} SinkOfDistinct(p: ActivityState, ys: seq<ActivityState>)
    requires |ys| > 0 && ys[0] != p
    requires forall i | 0 < i < |ys| :: ys[i - 1] != ys[i]
    ensures Sink(Some(p), ys).Some?
    ensures Run(Settled(p), Sink(Some(p), ys).value) == Some(Settled(ys[|ys| - 1]))
    decreases |ys|
  {
    var steps := Table(Some(p), ys[0]).value;
    assert ExpandAll(steps) == Hooks(p, ys[0]);
    HooksDrive(p, ys[0]);
    if |ys| == 1 {
      assert ys[1..] == [];
      assert Sink(Some(ys[0]), ys[1..]) == Some([]);
      assert Sink(Some(p), ys).value == ExpandAll(steps) + [] == ExpandAll(steps);
    } else {
      var tail := ys[1..];
      assert forall i | 0 < i < |tail| :: tail[i - 1] != tail[i] by {
        forall i | 0 < i < |tail| ensures tail[i - 1] != tail[i] {
          assert tail[i - 1] == ys[i] && tail[i] == ys[i + 1];
        }
      }
      SinkOfDistinct(ys[0], tail);
      RunAppend(Settled(p), ExpandAll(steps), Sink(Some(ys[0]), tail).value);
    }
  }

  /** The default branch of the switch is unreachable: the state subject starts
      at `detached`, so whatever the behaviour's state stream is, the first
      pair is (nil, detached) and every later pair, after duplicates are
      removed, is a real change. The callbacks fired along the way settle the
      automaton in the stream's last state. */
  lemma {:induction false} NoUnexpectedTransition(xs: seq<ActivityState>)
    requires |xs| > 0 && xs[0] == Detached
    ensures Sink(None, Dedup(xs)).Some?
    ensures Run(Settled(Detached), Sink(None, Dedup(xs)).value) == Some(Settled(xs[|xs| - 1]))
  {
    var ys := Dedup(xs);
    var rest := ys[1..];
    if rest == [] {
      assert |ys| == 1;
      assert Sink(Some(Detached), rest) == Some([]);
      assert Sink(None, ys).value == ExpandAll([]) + [] == [];
      assert ys[|ys| - 1] == ys[0] == Detached;
    } else {
      assert forall i | 0 < i < |rest| :: rest[i - 1] != rest[i] by {
        forall i | 0 < i < |rest| ensures rest[i - 1] != rest[i] {
          assert rest[i - 1] == ys[i] && rest[i] == ys[i + 1];
        }
      }
      assert rest[0] == ys[1] != ys[0];
      SinkOfDistinct(Detached, rest);
      assert Sink(None, ys).value == ExpandAll([]) + Sink(Some(Detached), rest).value
          == Sink(Some(Detached), rest).value;
      assert rest[|rest| - 1] == ys[|ys| - 1];
    }
  }

  // ---------------------------------------------------------------------------
  // The global callback log: one entry per callback, tagged with its behaviour.

  datatype Entry = Entry(node: nat, event: Event)

  function Tag(node: nat, es: seq<Event>): (r: seq<Entry>)
    ensures |r| == |es|
    ensures forall i | 0 <= i < |es| :: r[i] == Entry(node, es[i])
  {
    seq(|es|, i requires 0 <= i < |es| => Entry(node, es[i]))
  }

  /** The rows of the switch as log entries, grouped as the dispatcher runs
      them: an activation, possibly preceded by `willAttach`; a deactivation,
      possibly followed by `didDetach`; or a single attach or detach callback. */
  lemma TagRows(node: nat, a: ActivityState, b: ActivityState)
    ensures a == b ==> Tag(node, Hooks(a, b)) == []
    ensures a != b && b == Active ==>
              Tag(node, Hooks(a, b)) == (if a == Detached then [Entry(node, WillAttach)] else [])
                                        + [Entry(node, WillActivate), Entry(node, Stored), Entry(node, DidActivate)]
    ensures a == Active && b != Active ==>
              Tag(node, Hooks(a, b)) == [Entry(node, WillDeactivate), Entry(node, Released), Entry(node, DidDeactivate)]
                                        + (if b == Detached then [Entry(node, DidDetach)] else [])
    ensures a != b && a != Active && b != Active ==>
              Tag(node, Hooks(a, b)) == [Entry(node, if b == Attached then WillAttach else DidDetach)]
  {
    TableRows();
  }

  /** The callbacks one behaviour has received, in order. */
  function Project(log: seq<Entry>, node: nat): seq<Event>
    decreases |log|
  {
    if log == [] then []
    else if log[|log| - 1].node == node then Project(log[..|log| - 1], node) + [log[|log| - 1].event]
    else Project(log[..|log| - 1], node)
  }

  lemma {:induction false} ProjectAppend(a: seq<Entry>, b: seq<Entry>, node: nat)
    ensures Project(a + b, node) == Project(a, node) + Project(b, node)
    decreases |b|
  {
    if b == [] {
      assert a + b == a;
    } else {
      var b' := b[..|b| - 1];
      assert (a + b)[..|a + b| - 1] == a + b';
      ProjectAppend(a, b', node);
    }
  }

  /** Tagging a behaviour's callbacks and projecting the log back onto it
      gives exactly those callbacks; other behaviours see none of them. */
  lemma {:induction false} ProjectTag(node: nat, es: seq<Event>, other: nat)
    ensures Project(Tag(node, es), other) == if other == node then es else []
    decreases |es|
  {
    if es != [] {
      var es' := es[..|es| - 1];
      assert Tag(node, es)[..|es| - 1] == Tag(node, es');
      ProjectTag(node, es', other);
    }
  }

  lemma {:induction false} ProjectAbsent(log: seq<Entry>, node: nat)
    requires forall i | 0 <= i < |log| :: log[i].node != node
    ensures Project(log, node) == []
    decreases |log|
  {
    if log != [] {
      ProjectAbsent(log[..|log| - 1], node);
    }
  }

  /** Every behaviour's log of callbacks is an allowed run of the lifecycle
      automaton that ends in the state it currently publishes. */
  ghost predicate Logged(log: seq<Entry>, state: map<nat, ActivityState>)
  {
    forall n {:trigger Project(log, n)} | n in state :: Run(Settled(Detached), Project(log, n)) == Some(Settled(state[n]))
  }

  /** Moving one behaviour to a next state and logging the callbacks the switch
      fires for that move keeps every behaviour's log an allowed run. */
  lemma LogStep(log: seq<Entry>, state: map<nat, ActivityState>, n: nat, next: ActivityState)
    requires Logged(log, state) && n in state
    ensures Logged(log + Tag(n, Hooks(state[n], next)), state[n := next])
  {
    var log' := log + Tag(n, Hooks(state[n], next));
    forall m | m in state[n := next]
      ensures Run(Settled(Detached), Project(log', m)) == Some(Settled(state[n := next][m]))
    {
      ProjectAppend(log, Tag(n, Hooks(state[n], next)), m);
      ProjectTag(n, Hooks(state[n], next), m);
      if m == n {
        assert Project(log', m) == Project(log, n) + Hooks(state[n], next);
        HooksExtend(Project(log, n), state[n], next);
      } else {
        assert Project(log', m) == Project(log, m) + [] == Project(log, m);
        assert Run(Settled(Detached), Project(log, m)) == Some(Settled(state[m]));
      }
    }
  }
}
