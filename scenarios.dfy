/**
 * Small object graphs built through the public operations, as the library's
 * behaviour tests build them, with what each one ends up in.
 */
module Scenarios {
  import opened Results
  import opened Lifecycle
  import opened Topology
  import opened Resources
  import opened ScopeRuntime

  /** A new store holding one root and one new behaviour, not yet attached. */
  method RootAndBehavior(holder: bool) returns (rt: Runtime, root: HostRef, b: NodeId)
    ensures fresh(rt) && rt.Valid() && root.Root? && rt.IsHost(root) && b in rt.kind
    ensures rt.kind[b] != ScopeNode && rt.host[b] == None && root in rt.children && b !in rt.children[root]
  {
    rt := new Runtime();
    root := rt.NewRoot();
    b := rt.NewBehavior(holder);
  }

  /** A root hosts a new behaviour with `host([b])` as the concrete classes
      run it: the root retains the behaviour, yet the behaviour stays
      detached although the root is active. */
  method HostInRootAsWritten() returns (retained: bool, st: ActivityState)
    ensures retained && st == Detached
  {
    var rt, root, b := RootAndBehavior(false);
    rt.AttachSubscopesAsWritten(root, [b]);
    retained := b in rt.children[root];
    st := rt.State(b);
  }

  /** The same with `host([b])` as documented (each hosted node is told its
      host): the behaviour is retained and active. */
  method HostInRoot() returns (retained: bool, st: ActivityState)
    ensures retained && st == Active
  {
    var rt, root, b := RootAndBehavior(false);
    ghost var cs := rt.AttachSubscopes(root, [b]);
    retained := b in rt.children[root];
    st := rt.State(b);
  }

  /** A new store holding one root and a behaviour attached to it, which is
      therefore active. */
  method AttachedToRoot(holder: bool) returns (rt: Runtime, root: HostRef, b: NodeId)
    ensures fresh(rt) && rt.Valid() && root.Root? && rt.IsHost(root) && b in rt.kind
    ensures rt.kind[b] != ScopeNode && rt.host[b] == Some(root) && rt.state[b] == Active
  {
    rt, root, b := RootAndBehavior(holder);
    var r, cs := rt.BehaviorAttach(b, root);
  }

  /** A behaviour attached to a root is active; detached, it is detached;
      attached again, active again. */
  method AttachDetachReattach() returns (first: ActivityState, second: ActivityState, third: ActivityState)
    ensures first == Active && second == Detached && third == Active
  {
    var rt, root, b := AttachedToRoot(true);
    first := rt.State(b);
    var r, cs := rt.Detach(b);
    second := rt.State(b);
    r, cs := rt.BehaviorAttach(b, root);
    third := rt.State(b);
  }

  /** Attaching a behaviour to the host it already has is refused, and
      detaching a behaviour that has no host fails with `deallocatedHost`. */
  method RefusedAttachAndDetach() returns (again: Outcome<AttachmentError>, lone: Outcome<AttachmentError>)
    ensures again == Fail(AlreadyAttached) && lone == Fail(DeallocatedHost)
  {
    var rt, root, b := AttachedToRoot(false);
    ghost var cs;
    again, cs := rt.BehaviorAttach(b, root);
    var c := rt.NewBehavior(false);
    lone, cs := rt.Detach(c);
  }

  /** Moving a behaviour from one root to another leaves it hosted by the
      second root only, active throughout: no callback fires. */
  method Reparent() returns (quiet: bool, st: ActivityState, inFirst: bool, inSecond: bool)
    ensures quiet && st == Active && !inFirst && inSecond
  {
    var rt, one, b := AttachedToRoot(false);
    var two := rt.NewRoot();
    var before := rt.trace;
    var r, cs := rt.BehaviorAttach(b, two);
    quiet := rt.trace == before;
    st := rt.State(b);
    inFirst := b in rt.children[one];
    inSecond := b in rt.children[two];
  }

  /** A new scope is detached and its while-active receiver attached; once
      the scope is attached to a root, both are active. */
  method ScopeLifecycle() returns (created: ActivityState, receiver: ActivityState, attached: ActivityState)
    ensures created == Detached && receiver == Attached && attached == Active
  {
    var rt := new Runtime();
    var root := rt.NewRoot();
    var s, w := rt.NewScope();
    created := rt.State(s);
    assert created == Detached;
    receiver := rt.State(w);
    assert receiver == Attached;
    var r, cs := rt.ScopeAttach(s, root);
    attached := rt.State(s);
  }

  /** A new store holding a scope attached to a root, and the scope's
      while-active holder behaviour `w`, whose derived state is therefore
      active. */
  method ActiveReceiver() returns (rt: Runtime, w: NodeId)
    ensures fresh(rt) && rt.Valid() && w in rt.kind && rt.kind[w] == HolderBehavior && rt.state[w] == Active
  {
    var s;
    rt, s, w := ScopeUnderRoot();
    HostedState(rt.host, rt.depth, rt.state, w);
  }

  /** A new store holding a scope `s` attached to a root, which makes it
      active, and the scope's holder behaviour `w`, which it hosts. */
  method ScopeUnderRoot() returns (rt: Runtime, s: NodeId, w: NodeId)
    ensures fresh(rt) && rt.Valid() && s in rt.state && rt.state[s] == Active
    ensures w in rt.kind && rt.kind[w] == HolderBehavior && rt.host[w] == Some(Sub(s))
  {
    var root;
    rt, root, s, w := RootAndScope();
    ghost var ptr := rt.host;
    var r, cs := rt.ScopeAttach(s, root);
    assert rt.host == ptr[s := Some(root)];
  }

  /** A new store holding one root and one new scope `s`, not yet attached,
      whose holder behaviour `w` it hosts. */
  method RootAndScope() returns (rt: Runtime, root: HostRef, s: NodeId, w: NodeId)
    ensures fresh(rt) && rt.Valid() && root.Root? && rt.IsHost(root)
    ensures s in rt.kind && rt.kind[s] == ScopeNode && rt.host[s] == None
    ensures w in rt.kind && rt.kind[w] == HolderBehavior && rt.host[w] == Some(Sub(s))
  {
    rt := new Runtime();
    root := rt.NewRoot();
    s, w := rt.NewScope();
  }

  /** As written, that holder behaviour's switch never started: it
      publishes `detached`, and what it receives is cancelled at once. */
  method ReceiverAsWritten() returns (published: ActivityState, cancelled: bool)
    ensures published == Detached && cancelled
  {
    var rt, w := ActiveReceiver();
    published := PublishedAsWritten(rt.kind[w], rt.state[w]);
    var b := rt.books[w];
    ReceiverCancelsAsWritten(b, w);
    cancelled := Item(w, b.received) in ItemsOf(ReceivedAsWritten(b, rt.state[w]), w).cancelled;
  }

  /** With every node's switch running, the same holder behaviour is active
      and keeps what it receives. */
  method ReceiverUnderActiveScope() returns (st: ActivityState, held: bool)
    ensures st == Active && held
  {
    var rt, w := ActiveReceiver();
    var b := rt.books[w];
    rt.Receive(w);
    st := rt.State(w);
    held := Item(w, b.received) in ItemsOf(rt.books[w], w).held;
  }

  /** A new store holding a scope `t` attached to a detached scope `s`. */
  method NestedScopes() returns (rt: Runtime, s: NodeId, t: NodeId)
    ensures fresh(rt) && rt.Valid() && s in rt.kind && t in rt.kind
    ensures rt.kind[s] == ScopeNode && rt.kind[t] == ScopeNode
    ensures rt.host[t] == Some(Sub(s)) && rt.host[s] == None
  {
    rt, s, t := TwoScopes();
    var r, cs := rt.ScopeAttach(t, Sub(s));
  }

  /** Two new scopes, neither attached to anything. */
  method TwoScopes() returns (rt: Runtime, s: NodeId, t: NodeId)
    ensures fresh(rt) && rt.Valid() && s in rt.kind && t in rt.kind && s != t
    ensures rt.kind[s] == ScopeNode && rt.kind[t] == ScopeNode
    ensures rt.host[t] == None && rt.host[s] == None
  {
    rt, s := LoneScope();
    var v;
    t, v := rt.NewScope();
  }

  /** A new store holding one new scope, not attached to anything. */
  method LoneScope() returns (rt: Runtime, s: NodeId)
    ensures fresh(rt) && rt.Valid() && s in rt.kind && rt.kind[s] == ScopeNode && rt.host[s] == None
  {
    rt := new Runtime();
    var w;
    s, w := rt.NewScope();
  }

  /** Attaching a scope to a scope it hosts is refused as circular. */
  method CircularRefused() returns (circular: Outcome<AttachmentError>)
    ensures circular == Fail(CircularAttachment)
  {
    var rt, s, t := NestedScopes();
    ghost var cs;
    circular, cs := rt.ScopeAttach(s, Sub(t));
  }
}
