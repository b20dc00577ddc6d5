/**
 * The ScopeKit object graph as one mutable store: every `Behavior` and
 * `Scope` (a node), every `RootScope`, the host pointer each node's
 * `BehaviorComponent` keeps, the child set each host's `HostComponent` keeps,
 * the state each node last published, and the cancellables its holders hold.
 *
 * The Combine chains of the library run synchronously, so each is modelled as
 * the direct call it amounts to: sending a new host pointer recomputes the
 * state of every node below it, parent before child, and each change of state
 * runs the lifecycle switch of that node.
 */
module ScopeRuntime {
  import opened Results
  import opened Lifecycle
  import opened Topology
  import opened Resources
  import opened Accounts

  /** A plain `Behavior`, the `CancellableHolderBehavior` a scope uses for its
      while-active receiver, or a `Scope` (which can also host). */
  datatype Kind = PlainBehavior | HolderBehavior | ScopeNode

  datatype AttachmentError = CircularAttachment | AlreadyAttached | DeallocatedHost

  /** The callbacks fired when the nodes of `order` move, one after the other,
      from their states in `s0` to their states in `s1`. */
  function Entries(order: seq<NodeId>, s0: map<NodeId, ActivityState>, s1: map<NodeId, ActivityState>): seq<Entry>
    requires forall i | 0 <= i < |order| :: order[i] in s0 && order[i] in s1
    decreases |order|
  {
    if order == [] then []
    else Entries(order[..|order| - 1], s0, s1) + Tag(Last(order), Hooks(s0[Last(order)], s1[Last(order)]))
  }

  /** No node comes before the scope that hosts it. */
  predicate ParentFirst(order: seq<NodeId>, host: Pointers)
  {
    forall i, j | 0 <= i < j < |order| && order[i] in host :: host[order[i]] != Some(Sub(order[j]))
  }

  /** `order` lists nodes of `kind` only, and every one of them. */
  predicate Covers(order: seq<NodeId>, kind: map<NodeId, Kind>)
  {
    && (forall i | 0 <= i < |order| :: order[i] in kind)
    && (forall x {:trigger x in order} | x in kind :: x in order)
  }

  predicate Distinct(order: seq<NodeId>)
  {
    forall i, j | 0 <= i < j < |order| :: order[i] != order[j]
  }

  lemma {:induction false} EntriesFrame(order: seq<NodeId>, s0: map<NodeId, ActivityState>, s1: map<NodeId, ActivityState>, m: NodeId, v: ActivityState)
    requires forall i | 0 <= i < |order| :: order[i] in s0 && order[i] in s1
    requires m !in order
    ensures Entries(order, s0, s1[m := v]) == Entries(order, s0, s1)
    decreases |order|
  {
    if order != [] {
      EntriesFrame(order[..|order| - 1], s0, s1, m, v);
    }
  }

  /** When no node of `order` changes state, no callback fires. */
  lemma {:induction false} EntriesNoChange(order: seq<NodeId>, s0: map<NodeId, ActivityState>, s1: map<NodeId, ActivityState>)
    requires forall i | 0 <= i < |order| :: order[i] in s0 && order[i] in s1 && s0[order[i]] == s1[order[i]]
    ensures Entries(order, s0, s1) == []
    decreases |order|
  {
    if order != [] {
      EntriesNoChange(order[..|order| - 1], s0, s1);
    }
  }

  /** Each node of a cascade sees exactly the callbacks of the switch row for
      its own move, and nodes outside it see none. */
  lemma {:induction false} ProjectEntries(order: seq<NodeId>, s0: map<NodeId, ActivityState>, s1: map<NodeId, ActivityState>, m: NodeId)
    requires forall i | 0 <= i < |order| :: order[i] in s0 && order[i] in s1
    requires Distinct(order)
    ensures Project(Entries(order, s0, s1), m) == if m in order then Hooks(s0[m], s1[m]) else []
    decreases |order|
  {
    if order != [] {
      var prefix := order[..|order| - 1];
      var x := Last(order);
      var es := Hooks(s0[x], s1[x]);
      assert order == prefix + [x];
      assert x !in prefix;
      assert m in order <==> m in prefix || m == x;
      ProjectEntries(prefix, s0, s1, m);
      ProjectAppend(Entries(prefix, s0, s1), Tag(x, es), m);
      ProjectTag(x, es, m);
      if m == x {
        assert Project(Entries(order, s0, s1), m) == [] + es;
      } else {
        assert Project(Entries(order, s0, s1), m) == Project(Entries(prefix, s0, s1), m) + [];
      }
    }
  }

  /** `h` names a host that exists: a root already created, or a scope. */
  predicate HostIn(kind: map<NodeId, Kind>, nextRoot: nat, h: HostRef)
  {
    match h
    case Root(r) => r < nextRoot
    case Sub(s) => s in kind && kind[s] == ScopeNode
  }

  /** The attachment graph is well formed: nodes are numbered densely, every
      existing host has a child set of existing nodes, a node's host pointer
      names an existing host whose child set contains it (the host retains
      what points at it), the pointers are ranked (acyclic), and every scope's
      while-active receiver is a holder behaviour. */
  ghost predicate Graph(kind: map<NodeId, Kind>, host: Pointers, children: map<HostRef, set<NodeId>>,
                        depth: map<NodeId, nat>, whileActive: map<NodeId, NodeId>, nextNode: nat, nextRoot: nat)
  {
    && (forall n: NodeId :: n in kind <==> n < nextNode)
    && host.Keys == kind.Keys
    && (forall h :: h in children <==> HostIn(kind, nextRoot, h))
    && (forall h | h in children :: children[h] <= kind.Keys)
    && (forall n {:trigger host[n]} | n in host && host[n].Some? :: HostIn(kind, nextRoot, host[n].value) && n in children[host[n].value])
    && Ranked(host, depth)
    && (forall s | s in whileActive ::
          s in kind && kind[s] == ScopeNode && whileActive[s] in kind && kind[whileActive[s]] == HolderBehavior)
  }

  /** Re-pointing a node at an existing host that already retains it (or at
      nothing), without closing a cycle, keeps the graph well formed; the
      ranking that witnesses acyclicity is returned. */
  lemma Repoint(kind: map<NodeId, Kind>, host: Pointers, children: map<HostRef, set<NodeId>>,
                depth: map<NodeId, nat>, whileActive: map<NodeId, NodeId>, nextNode: nat, nextRoot: nat,
                n: NodeId, v: Option<HostRef>) returns (depth': map<NodeId, nat>)
    requires Graph(kind, host, children, depth, whileActive, nextNode, nextRoot) && n in kind
    requires v.Some? ==> HostIn(kind, nextRoot, v.value) && v.value in children && n in children[v.value]
    requires v.Some? && v.value.Sub? ==> Sub(n) !in Ancestors(host, depth, v.value)
    ensures Graph(kind, host[n := v], children, depth', whileActive, nextNode, nextRoot)
  {
    RepointKeepsRanked(host, depth, n, v);
    depth' := Shifted(host, depth, n, v);
  }

  /** The callback log only names existing nodes. */
  ghost predicate TraceIn(trace: seq<Entry>, nextNode: nat)
  {
    forall i | 0 <= i < |trace| :: trace[i].node < nextNode
  }

  /** The counters that determine what a node's holders hold and have
      cancelled (see `WorkHolding` and `ItemHolding`): the number of activation
      windows opened, and for a while-active holder behaviour the receipt at
      which its current window began and the number of items received. */
  datatype Book = Book(windows: nat, start: nat, received: nat)

  /** The behaviour holder of a node in state `s`. */
  function WorkOf(b: Book, n: NodeId, s: ActivityState): Holding
  {
    WorkHolding(n, b.windows, s)
  }

  /** The received-items holder of a node, with what it cancelled at receipt. */
  function ItemsOf(b: Book, n: NodeId): Holding
  {
    ItemHolding(n, b.start, b.received)
  }

  /** An active node has opened a window, and only an active holder
      behaviour holds items. */
  predicate BookOk(b: Book, s: ActivityState, holder: bool)
  {
    && (s == Active ==> b.windows > 0)
    && b.start <= b.received
    && (b.start < b.received ==> s == Active && holder)
  }

  ghost predicate Accounted(kind: map<NodeId, Kind>, state: map<NodeId, ActivityState>, books: map<NodeId, Book>)
  {
    && state.Keys == kind.Keys && books.Keys == kind.Keys
    && forall n | n in kind :: BookOk(books[n], state[n], kind[n] == HolderBehavior)
  }

  /** A node's books after its switch moves it from `previous` to `next`:
      activation opens a window; deactivation of a holder behaviour closes
      its items window. */
  function Switched(b: Book, previous: ActivityState, next: ActivityState, holder: bool): Book
  {
    if previous == next then b
    else if next == Active then b.(windows := b.windows + 1)
    else if previous == Active && holder then b.(start := b.received)
    else b
  }

  /** What the switch does to the holders: entering the active state stores
      the new window's work in the behaviour holder; leaving it resets the
      behaviour holder and, for a holder behaviour, the items holder; any
      other move leaves both alone. */
  lemma SwitchedHolders(b: Book, n: NodeId, previous: ActivityState, next: ActivityState, holder: bool)
    requires BookOk(b, previous, holder)
    ensures var b' := Switched(b, previous, next, holder);
            && BookOk(b', next, holder)
            && WorkOf(b', n, next) == (if previous != next && next == Active then Apply(WorkOf(b, n, previous), Receiving(Work(n, b.windows)))
                                       else if previous != next && previous == Active then Apply(WorkOf(b, n, previous), Resetting)
                                       else WorkOf(b, n, previous))
            && ItemsOf(b', n) == (if previous != next && previous == Active && holder then Apply(ItemsOf(b, n), Resetting)
                                  else ItemsOf(b, n))
  {
    if previous != next && next == Active {
      OpenWindow(n, b.windows, previous);
    } else if previous != next && previous == Active {
      CloseWindow(n, b.windows, next);
      if holder {
        CloseItems(n, b.start, b.received);
      }
    }
  }

  // ---------------------------------------------------------------------------
  // State propagation: after a host pointer changes, every node recomputes its
  // state from its host's, parents before children.

  /** `m` is hosted by a scope that is still in `pending`. */
  predicate HostPending(host: Pointers, m: NodeId, pending: set<NodeId>)
    requires m in host
  {
    host[m].Some? && host[m].value.Sub? && host[m].value.scope in pending
  }

  /** The order in which propagation has visited nodes so far: each node
      once, the visited ones exactly those not pending, and none before its
      host (a node is visited only once its host is no longer pending). */
  predicate Visiting(kind: map<NodeId, Kind>, host: Pointers, order: seq<NodeId>, pending: set<NodeId>)
  {
    && host.Keys == kind.Keys && pending <= kind.Keys
    && Distinct(order)
    && (forall i | 0 <= i < |order| :: order[i] in kind && order[i] !in pending && !HostPending(host, order[i], pending))
    && (forall x | x in kind && x !in pending :: x in order)
    && ParentFirst(order, host)
  }

  lemma VisitStep(kind: map<NodeId, Kind>, host: Pointers, order: seq<NodeId>, pending: set<NodeId>, m: NodeId)
    requires Visiting(kind, host, order, pending)
    requires m in pending && !HostPending(host, m, pending)
    ensures Visiting(kind, host, order + [m], pending - {m})
  {
    var order' := order + [m];
    forall i, j | 0 <= i < j < |order'| && order'[i] in host ensures host[order'[i]] != Some(Sub(order'[j])) {
      if j == |order| {
        assert !HostPending(host, order[i], pending);
      }
    }
  }

  /** The nodes propagation has visited (those not `pending`) have
      recomputed their state from their host's by the local rule, and their
      books went through the switch for that move. */
  ghost predicate Recomputed(kind: map<NodeId, Kind>, host: Pointers,
                             s0: map<NodeId, ActivityState>, s1: map<NodeId, ActivityState>,
                             b0: map<NodeId, Book>, b1: map<NodeId, Book>, pending: set<NodeId>)
  {
    && PointsInto(host, s1)
    && forall x | x in kind && x !in pending ::
      && x in host && x in s0 && x in s1 && x in b0 && x in b1
      && !HostPending(host, x, pending)
      && s1[x] == LocalRule(host, s1, x)
      && b1[x] == Switched(b0[x], s0[x], s1[x], kind[x] == HolderBehavior)
  }

  /** The nodes still `pending` have not been touched. */
  ghost predicate Untouched(s0: map<NodeId, ActivityState>, s1: map<NodeId, ActivityState>,
                            b0: map<NodeId, Book>, b1: map<NodeId, Book>, pending: set<NodeId>)
  {
    forall x | x in pending :: x in s0 && x in s1 && x in b0 && x in b1 && s1[x] == s0[x] && b1[x] == b0[x]
  }

  /** With the keys of the host map, a ranking gives every scope pointed at
      a state. */
  lemma RankedPointsInto(host: Pointers, depth: map<NodeId, nat>, state: map<NodeId, ActivityState>)
    requires Ranked(host, depth) && state.Keys == host.Keys
    ensures PointsInto(host, state)
  {
  }

  /** A pending node whose host is not pending exists: the shallowest one. */
  lemma SettleNext(host: Pointers, depth: map<NodeId, nat>, pending: set<NodeId>)
    requires Ranked(host, depth) && pending <= host.Keys && pending != {}
    ensures exists m | m in pending :: !HostPending(host, m, pending)
  {
    var m := Shallowest(depth, pending);
    assert !HostPending(host, m, pending);
  }

  /** A node whose host is not `m` computes the same state by the local
      rule whether or not `m`'s state changes. */
  lemma LocalFrame(host: Pointers, state: map<NodeId, ActivityState>, m: NodeId, v: ActivityState, x: NodeId)
    requires x in host && PointsInto(host, state) && m in state
    requires host[x] != Some(Sub(m))
    ensures LocalRule(host, state[m := v], x) == LocalRule(host, state, x)
  {
  }

  /** Recomputing a pending node whose host has settled settles it, and
      unsettles nothing. */
  lemma SettleStep(kind: map<NodeId, Kind>, host: Pointers,
                   s0: map<NodeId, ActivityState>, s1: map<NodeId, ActivityState>,
                   b0: map<NodeId, Book>, b1: map<NodeId, Book>, pending: set<NodeId>, m: NodeId,
                   s1': map<NodeId, ActivityState>, b1': map<NodeId, Book>)
    requires Recomputed(kind, host, s0, s1, b0, b1, pending) && Untouched(s0, s1, b0, b1, pending)
    requires m in pending && m in kind && m in host && !HostPending(host, m, pending)
    requires s1' == s1[m := LocalRule(host, s1, m)]
    requires b1' == b1[m := Switched(b1[m], s1[m], s1'[m], kind[m] == HolderBehavior)]
    ensures Recomputed(kind, host, s0, s1', b0, b1', pending - {m})
  {
    var v := LocalRule(host, s1, m);
    forall x | x in kind && x !in pending - {m}
      ensures && !HostPending(host, x, pending - {m})
              && s1'[x] == LocalRule(host, s1', x)
              && b1'[x] == Switched(b0[x], s0[x], s1'[x], kind[x] == HolderBehavior)
    {
      LocalFrame(host, s1, m, v, x);
    }
  }

  lemma UntouchedStep(s0: map<NodeId, ActivityState>, s1: map<NodeId, ActivityState>,
                      b0: map<NodeId, Book>, b1: map<NodeId, Book>, pending: set<NodeId>, m: NodeId,
                      s1': map<NodeId, ActivityState>, b1': map<NodeId, Book>)
    requires Untouched(s0, s1, b0, b1, pending) && m in s1' && m in b1'
    requires s1' == s1[m := s1'[m]] && b1' == b1[m := b1'[m]]
    ensures Untouched(s0, s1', b0, b1', pending - {m})
  {
  }

  /** When nothing is pending, every node has settled: the states agree with
      the host pointers. */
  lemma SettleDone(kind: map<NodeId, Kind>, host: Pointers, depth: map<NodeId, nat>,
                   s0: map<NodeId, ActivityState>, s1: map<NodeId, ActivityState>,
                   b0: map<NodeId, Book>, b1: map<NodeId, Book>)
    requires Ranked(host, depth) && host.Keys == kind.Keys && s0.Keys == kind.Keys && s1.Keys == kind.Keys
    requires b0.Keys == kind.Keys && b1.Keys == kind.Keys && PointsInto(host, s1)
    requires Recomputed(kind, host, s0, s1, b0, b1, {})
    ensures Coherent(host, depth, s1)
  {
    CoherentIffLocal(host, depth, s1);
  }

  /** Recomputing one more node extends the cascade's log by its own row. */
  lemma {:induction false} EntriesStep(order: seq<NodeId>, s0: map<NodeId, ActivityState>, s1: map<NodeId, ActivityState>,
                                       m: NodeId, v: ActivityState)
    requires forall i | 0 <= i < |order| :: order[i] in s0 && order[i] in s1
    requires m !in order && m in s0
    ensures forall i | 0 <= i < |order + [m]| :: (order + [m])[i] in s0 && (order + [m])[i] in s1[m := v]
    ensures Entries(order + [m], s0, s1[m := v]) == Entries(order, s0, s1) + Tag(m, Hooks(s0[m], v))
  {
    var order' := order + [m];
    forall i | 0 <= i < |order'| ensures order'[i] in s0 && order'[i] in s1[m := v] {
      if i < |order| {
        assert order'[i] == order[i];
      }
    }
    assert order'[..|order|] == order;
    assert Last(order') == m;
    calc {
      Entries(order', s0, s1[m := v]);
      Entries(order, s0, s1[m := v]) + Tag(m, Hooks(s0[m], s1[m := v][m]));
      { EntriesFrame(order, s0, s1, m, v); }
      Entries(order, s0, s1) + Tag(m, Hooks(s0[m], v));
    }
  }

  /** Kept as a separate step: the solver re-associates a long log more
      cheaply here than inside the cascade proof. */
  lemma AppendAssociates(a: seq<Entry>, b: seq<Entry>, c: seq<Entry>)
    ensures (a + b) + c == a + (b + c)
  {
  }

  /** Everything that holds between two steps of a cascade that started from
      states `s0`, books `b0` and log `t0`, besides what never changes
      (`Fixed`). */
  ghost predicate Propagation(kind: map<NodeId, Kind>, host: Pointers,
                              s0: map<NodeId, ActivityState>, b0: map<NodeId, Book>, t0: seq<Entry>, coherent: bool,
                              state: map<NodeId, ActivityState>, books: map<NodeId, Book>, trace: seq<Entry>,
                              order: seq<NodeId>, pending: set<NodeId>)
  {
    && state.Keys == kind.Keys && books.Keys == kind.Keys && PointsInto(host, state)
    && Visiting(kind, host, order, pending)
    && Recomputed(kind, host, s0, state, b0, books, pending)
    && Untouched(s0, state, b0, books, pending)
    && trace == t0 + Entries(order, s0, state)
    && (coherent ==> state == s0 && trace == t0 && forall x | x in kind :: s0[x] == LocalRule(host, s0, x))
  }

  /** What a cascade does not change: the nodes, their hosts and the
      ranking, and where it started. */
  ghost predicate Fixed(kind: map<NodeId, Kind>, host: Pointers, depth: map<NodeId, nat>,
                        s0: map<NodeId, ActivityState>, b0: map<NodeId, Book>)
  {
    Ranked(host, depth) && host.Keys == kind.Keys && s0.Keys == kind.Keys && b0.Keys == kind.Keys
  }

  /** Recomputing a pending node whose host has settled, and running its
      switch, keeps the cascade invariant. */
  lemma PropagationStep(kind: map<NodeId, Kind>, host: Pointers,
                        s0: map<NodeId, ActivityState>, b0: map<NodeId, Book>, t0: seq<Entry>, coherent: bool,
                        state: map<NodeId, ActivityState>, books: map<NodeId, Book>, trace: seq<Entry>,
                        order: seq<NodeId>, pending: set<NodeId>, m: NodeId,
                        state': map<NodeId, ActivityState>, books': map<NodeId, Book>, trace': seq<Entry>)
    requires Propagation(kind, host, s0, b0, t0, coherent, state, books, trace, order, pending)
    requires m in pending && !HostPending(host, m, pending)
    requires state' == state[m := LocalRule(host, state, m)]
    requires books' == books[m := Switched(books[m], state[m], state'[m], kind[m] == HolderBehavior)]
    requires trace' == trace + Tag(m, Hooks(state[m], state'[m]))
    ensures Propagation(kind, host, s0, b0, t0, coherent, state', books', trace', order + [m], pending - {m})
  {
    var v := state'[m];
    SettleStep(kind, host, s0, state, b0, books, pending, m, state', books');
    UntouchedStep(s0, state, b0, books, pending, m, state', books');
    VisitStep(kind, host, order, pending, m);
    EntriesStep(order, s0, state, m, v);
    AppendAssociates(t0, Entries(order, s0, state), Tag(m, Hooks(s0[m], v)));
    if coherent {
      assert state' == state;
      TagRows(m, v, v);
    }
  }

  /** Before a step of the cascade: the next node exists. */
  lemma PropagationNext(kind: map<NodeId, Kind>, host: Pointers, depth: map<NodeId, nat>,
                        s0: map<NodeId, ActivityState>, b0: map<NodeId, Book>, t0: seq<Entry>, coherent: bool,
                        state: map<NodeId, ActivityState>, books: map<NodeId, Book>, trace: seq<Entry>,
                        order: seq<NodeId>, pending: set<NodeId>)
    requires Fixed(kind, host, depth, s0, b0)
    requires Propagation(kind, host, s0, b0, t0, coherent, state, books, trace, order, pending)
    requires pending != {}
    ensures exists m | m in pending :: !HostPending(host, m, pending)
    ensures pending <= kind.Keys && state.Keys == kind.Keys && books.Keys == kind.Keys && PointsInto(host, state)
  {
    SettleNext(host, depth, pending);
  }

  lemma PropagationStart(kind: map<NodeId, Kind>, host: Pointers, depth: map<NodeId, nat>,
                         state: map<NodeId, ActivityState>, books: map<NodeId, Book>, trace: seq<Entry>, coherent: bool)
    requires Fixed(kind, host, depth, state, books)
    requires coherent == Coherent(host, depth, state)
    ensures Propagation(kind, host, state, books, trace, coherent, state, books, trace, [], kind.Keys)
  {
    RankedPointsInto(host, depth, state);
    CoherentIffLocal(host, depth, state);
    assert trace + [] == trace;
  }

  /** Once nothing is pending, every node has been visited. */
  lemma VisitedAll(kind: map<NodeId, Kind>, host: Pointers, order: seq<NodeId>)
    requires Visiting(kind, host, order, {})
    ensures Covers(order, kind) && Distinct(order) && ParentFirst(order, host)
  {
    forall x | x in kind ensures x in order {
      assert x !in {};
    }
  }

  lemma PropagationDone(kind: map<NodeId, Kind>, host: Pointers, depth: map<NodeId, nat>,
                        s0: map<NodeId, ActivityState>, b0: map<NodeId, Book>, t0: seq<Entry>, coherent: bool,
                        state: map<NodeId, ActivityState>, books: map<NodeId, Book>, trace: seq<Entry>,
                        order: seq<NodeId>)
    requires Fixed(kind, host, depth, s0, b0)
    requires Propagation(kind, host, s0, b0, t0, coherent, state, books, trace, order, {})
    requires coherent == Coherent(host, depth, s0)
    ensures Coherent(host, depth, state)
    ensures state.Keys == kind.Keys && books.Keys == kind.Keys
    ensures Covers(order, kind)
    ensures Distinct(order) && ParentFirst(order, host)
    ensures trace == t0 + Entries(order, s0, state)
    ensures forall x | x in kind :: books[x] == Switched(b0[x], s0[x], state[x], kind[x] == HolderBehavior)
    ensures coherent ==> state == s0 && trace == t0 && books == b0
  {
    SettleDone(kind, host, depth, s0, state, b0, books);
    VisitedAll(kind, host, order);
    if coherent {
      assert books == b0;
    }
  }

  /** The callbacks of a cascade only name nodes it visited. */
  lemma {:induction false} EntriesIn(order: seq<NodeId>, s0: map<NodeId, ActivityState>, s1: map<NodeId, ActivityState>, nextNode: nat)
    requires forall k | 0 <= k < |order| :: order[k] in s0 && order[k] in s1 && order[k] < nextNode
    ensures TraceIn(Entries(order, s0, s1), nextNode)
    decreases |order|
  {
    if order != [] {
      EntriesIn(order[..|order| - 1], s0, s1, nextNode);
      var x := Last(order);
    }
  }

  lemma TraceInConcat(a: seq<Entry>, b: seq<Entry>, nextNode: nat)
    requires TraceIn(a, nextNode) && TraceIn(b, nextNode)
    ensures TraceIn(a + b, nextNode)
  {
    forall i | 0 <= i < |a + b| ensures (a + b)[i].node < nextNode {
      if i >= |a| {
        assert (a + b)[i] == b[i - |a|];
      }
    }
  }

  /** A cascade keeps the store's invariants: each node's books went through
      one switch, its log grew by that switch's callbacks, and the log only
      names existing nodes. */
  lemma CascadeKeeps(kind: map<NodeId, Kind>, nextNode: nat,
                     s0: map<NodeId, ActivityState>, b0: map<NodeId, Book>, t0: seq<Entry>,
                     state: map<NodeId, ActivityState>, books: map<NodeId, Book>, trace: seq<Entry>,
                     order: seq<NodeId>)
    requires (forall n | n in kind :: n < nextNode) && s0.Keys == kind.Keys
    requires Accounted(kind, s0, b0) && TraceIn(t0, nextNode) && Logged(t0, s0)
    requires state.Keys == kind.Keys && books.Keys == kind.Keys
    requires Covers(order, kind) && Distinct(order)
    requires trace == t0 + Entries(order, s0, state)
    requires forall x | x in kind :: books[x] == Switched(b0[x], s0[x], state[x], kind[x] == HolderBehavior)
    ensures Accounted(kind, state, books) && TraceIn(trace, nextNode) && Logged(trace, state)
  {
    var e := Entries(order, s0, state);
    forall x | x in kind ensures BookOk(books[x], state[x], kind[x] == HolderBehavior) {
      SwitchedHolders(b0[x], x, s0[x], state[x], kind[x] == HolderBehavior);
    }
    EntriesIn(order, s0, state, nextNode);
    TraceInConcat(t0, e, nextNode);
    forall n | n in state ensures Run(Settled(Detached), Project(trace, n)) == Some(Settled(state[n])) {
      ProjectAppend(t0, e, n);
      ProjectEntries(order, s0, state, n);
      HooksExtend(Project(t0, n), s0[n], state[n]);
    }
  }

  /** The invariant of the store: a well-formed graph, holders that account
      for every token, a log that explains every cached state, and cached
      states that agree with the host pointers. */
  ghost predicate Invariant(kind: map<NodeId, Kind>, host: Pointers, children: map<HostRef, set<NodeId>>,
                            depth: map<NodeId, nat>, whileActive: map<NodeId, NodeId>, nextNode: nat, nextRoot: nat,
                            state: map<NodeId, ActivityState>, books: map<NodeId, Book>, trace: seq<Entry>)
  {
    && Graph(kind, host, children, depth, whileActive, nextNode, nextRoot)
    && Accounted(kind, state, books) && TraceIn(trace, nextNode) && Logged(trace, state)
    && Coherent(host, depth, state)
  }

  /** A cascade over a well-formed graph, started from states the books and
      the log accounted for, re-establishes the invariant. */
  lemma Recascaded(kind: map<NodeId, Kind>, host: Pointers, children: map<HostRef, set<NodeId>>,
                   depth: map<NodeId, nat>, whileActive: map<NodeId, NodeId>, nextNode: nat, nextRoot: nat,
                   s0: map<NodeId, ActivityState>, b0: map<NodeId, Book>, t0: seq<Entry>,
                   state: map<NodeId, ActivityState>, books: map<NodeId, Book>, trace: seq<Entry>,
                   order: seq<NodeId>)
    requires Graph(kind, host, children, depth, whileActive, nextNode, nextRoot)
    requires Accounted(kind, s0, b0) && TraceIn(t0, nextNode) && Logged(t0, s0)
    requires Coherent(host, depth, state) && books.Keys == kind.Keys
    requires Covers(order, kind) && Distinct(order)
    requires trace == t0 + Entries(order, s0, state)
    requires forall x | x in kind :: books[x] == Switched(b0[x], s0[x], state[x], kind[x] == HolderBehavior)
    ensures Invariant(kind, host, children, depth, whileActive, nextNode, nextRoot, state, books, trace)
  {
    CascadeKeeps(kind, nextNode, s0, b0, t0, state, books, trace, order);
  }

  /** A host retaining more existing nodes keeps the graph well formed. */
  lemma RetainKeeps(kind: map<NodeId, Kind>, host: Pointers, children: map<HostRef, set<NodeId>>,
                    depth: map<NodeId, nat>, whileActive: map<NodeId, NodeId>, nextNode: nat, nextRoot: nat,
                    h: HostRef, ns: set<NodeId>)
    requires Graph(kind, host, children, depth, whileActive, nextNode, nextRoot)
    requires HostIn(kind, nextRoot, h) && ns <= kind.Keys
    ensures Graph(kind, host, children[h := children[h] + ns], depth, whileActive, nextNode, nextRoot)
  {
  }

  /** A host may stop retaining nodes that no longer point at it: only the
      nodes that point at a host must be in its child set. */
  lemma ReleaseKeeps(kind: map<NodeId, Kind>, host: Pointers, children: map<HostRef, set<NodeId>>,
                     depth: map<NodeId, nat>, whileActive: map<NodeId, NodeId>, nextNode: nat, nextRoot: nat,
                     h: HostRef, ns: set<NodeId>)
    requires Graph(kind, host, children, depth, whileActive, nextNode, nextRoot)
    requires HostIn(kind, nextRoot, h)
    requires forall x | x in ns && x in host :: host[x] != Some(h)
    ensures Graph(kind, host, children[h := children[h] - ns], depth, whileActive, nextNode, nextRoot)
  {
  }

  /** What receiving a cancellable does to the counters of holder behaviour
      `w`: while active it holds one more item; otherwise the item is
      cancelled at once and the (empty) window moves past it. */
  function Received(b: Book, active: bool): Book
  {
    if active then b.(received := b.received + 1)
    else b.(start := b.received + 1, received := b.received + 1)
  }

  /** Whether a node's lifecycle switch runs, as written: `Scope.init`
      starts the scope's own, while nothing starts a behaviour's, plain or
      holder (`Behavior` has no initialiser that does, and
      `BehaviorComponent.start(listener:)` has no caller). */
  function StartedAsWritten(k: Kind): bool
  {
    k == ScopeNode
  }

  /** The state a node publishes, as written: the derived state when its
      switch runs; otherwise the `detached` its state subject starts with,
      since nothing ever subscribes to its state publisher. */
  function PublishedAsWritten(k: Kind, derived: ActivityState): ActivityState
  {
    if StartedAsWritten(k) then derived else Detached
  }

  /** `CancellableHolderBehavior.receive` on the counters, as written: its
      guard reads the published state, never the derived one. */
  function ReceivedAsWritten(b: Book, derived: ActivityState): Book
  {
    Received(b, PublishedAsWritten(HolderBehavior, derived) == Active)
  }

  /** As written, a holder behaviour whose derived state is active cancels
      at once the item it receives, where the store keeps it in the open
      window. */
  lemma ReceiverCancelsAsWritten(b: Book, w: NodeId)
    requires b.start <= b.received
    ensures Item(w, b.received) in ItemsOf(ReceivedAsWritten(b, Active), w).cancelled
    ensures Item(w, b.received) !in ItemsOf(ReceivedAsWritten(b, Active), w).held
    ensures Item(w, b.received) in ItemsOf(Received(b, true), w).held
  {
  }

  /** Receiving a cancellable keeps the invariant. */
  lemma ReceiveKeeps(kind: map<NodeId, Kind>, host: Pointers, children: map<HostRef, set<NodeId>>,
                     depth: map<NodeId, nat>, whileActive: map<NodeId, NodeId>, nextNode: nat, nextRoot: nat,
                     state: map<NodeId, ActivityState>, books: map<NodeId, Book>, trace: seq<Entry>,
                     w: NodeId, books': map<NodeId, Book>)
    requires Invariant(kind, host, children, depth, whileActive, nextNode, nextRoot, state, books, trace)
    requires w in kind && kind[w] == HolderBehavior
    requires books' == books[w := Received(books[w], state[w] == Active)]
    ensures Invariant(kind, host, children, depth, whileActive, nextNode, nextRoot, state, books', trace)
  {
    assert BookOk(books'[w], state[w], true);
  }

  /** A new root starts with an empty child set. */
  lemma AddRootKeeps(kind: map<NodeId, Kind>, host: Pointers, children: map<HostRef, set<NodeId>>,
                     depth: map<NodeId, nat>, whileActive: map<NodeId, NodeId>, nextNode: nat, nextRoot: nat,
                     children': map<HostRef, set<NodeId>>, nextRoot': nat)
    requires Graph(kind, host, children, depth, whileActive, nextNode, nextRoot)
    requires children' == children[Root(nextRoot) := {}] && nextRoot' == nextRoot + 1
    ensures Graph(kind, host, children', depth, whileActive, nextNode, nextRoot')
  {
  }


  /** A scope's while-active receiver is one of the holder behaviours. */
  lemma AddReceiverKeeps(kind: map<NodeId, Kind>, host: Pointers, children: map<HostRef, set<NodeId>>,
                         depth: map<NodeId, nat>, whileActive: map<NodeId, NodeId>, nextNode: nat, nextRoot: nat,
                         s: NodeId, w: NodeId)
    requires Graph(kind, host, children, depth, whileActive, nextNode, nextRoot)
    requires s in kind && kind[s] == ScopeNode && w in kind && kind[w] == HolderBehavior
    ensures Graph(kind, host, children, depth, whileActive[s := w], nextNode, nextRoot)
  {
  }

  /** A new node has no host: it derives the detached state, and no other
      node's derived state changes. */
  lemma AddNodeCoherent(host: Pointers, depth: map<NodeId, nat>, state: map<NodeId, ActivityState>, n: NodeId)
    requires Coherent(host, depth, state) && n !in host
    ensures Coherent(host[n := None], depth[n := 0], state[n := Detached])
  {
    var host', depth', state' := host[n := None], depth[n := 0], state[n := Detached];
    CoherentIffLocal(host, depth, state);
    forall m | m in host' ensures state'[m] == LocalRule(host', state', m) {
      if m != n {
        assert state[m] == LocalRule(host, state, m);
      }
    }
    CoherentIffLocal(host', depth', state');
  }

  /** A new node has received no callbacks yet. */
  lemma AddNodeLogged(trace: seq<Entry>, state: map<NodeId, ActivityState>, n: NodeId)
    requires Logged(trace, state) && TraceIn(trace, n)
    ensures Logged(trace, state[n := Detached])
  {
    ProjectAbsent(trace, n);
  }

  /** A new node with no host (and, for a scope, an empty child set) keeps
      the graph well formed. */
  lemma AddNodeGraph(kind: map<NodeId, Kind>, host: Pointers, children: map<HostRef, set<NodeId>>,
                     depth: map<NodeId, nat>, whileActive: map<NodeId, NodeId>, nextNode: nat, nextRoot: nat, k: Kind)
    requires Graph(kind, host, children, depth, whileActive, nextNode, nextRoot)
    ensures Graph(kind[nextNode := k], host[nextNode := None],
                  if k == ScopeNode then children[Sub(nextNode) := {}] else children,
                  depth[nextNode := 0], whileActive, nextNode + 1, nextRoot)
  {
    var kind', host' := kind[nextNode := k], host[nextNode := None];
    var children' := if k == ScopeNode then children[Sub(nextNode) := {}] else children;
    forall h ensures h in children' <==> HostIn(kind', nextRoot, h) {
      assert h.Sub? && h.scope != nextNode ==> (HostIn(kind', nextRoot, h) <==> HostIn(kind, nextRoot, h));
    }
    forall n | n in host' && host'[n].Some?
      ensures HostIn(kind', nextRoot, host'[n].value) && n in children'[host'[n].value]
    {
      assert host'[n] == host[n];
    }
    forall m | m in host' && host'[m].Some? && host'[m].value.Sub?
      ensures host'[m].value.scope in host' && depth[nextNode := 0][host'[m].value.scope] < depth[nextNode := 0][m]
    {
      assert host'[m] == host[m];
    }
    forall h | h in children' ensures children'[h] <= kind'.Keys {
    }
    forall x: NodeId ensures x in kind' <==> x < nextNode + 1 {
    }
    forall s | s in whileActive
      ensures s in kind' && kind'[s] == ScopeNode && whileActive[s] in kind' && kind'[whileActive[s]] == HolderBehavior
    {
      assert s != nextNode && whileActive[s] != nextNode;
    }
  }

  /** Adding a new detached node with no host, empty holders and (for a
      scope) an empty child set keeps the invariant. */
  lemma AddNodeKeeps(kind: map<NodeId, Kind>, host: Pointers, children: map<HostRef, set<NodeId>>,
                     depth: map<NodeId, nat>, whileActive: map<NodeId, NodeId>, nextNode: nat, nextRoot: nat,
                     state: map<NodeId, ActivityState>, books: map<NodeId, Book>, trace: seq<Entry>, k: Kind,
                     kind': map<NodeId, Kind>, host': Pointers, children': map<HostRef, set<NodeId>>,
                     depth': map<NodeId, nat>, nextNode': nat, state': map<NodeId, ActivityState>, books': map<NodeId, Book>)
    requires Invariant(kind, host, children, depth, whileActive, nextNode, nextRoot, state, books, trace)
    requires kind' == kind[nextNode := k] && host' == host[nextNode := None] && depth' == depth[nextNode := 0]
    requires children' == if k == ScopeNode then children[Sub(nextNode) := {}] else children
    requires state' == state[nextNode := Detached] && books' == books[nextNode := Book(0, 0, 0)]
    requires nextNode' == nextNode + 1
    ensures Invariant(kind', host', children', depth', whileActive, nextNode', nextRoot, state', books', trace)
  {
    AddNodeGraph(kind, host, children, depth, whileActive, nextNode, nextRoot, k);
    AddNodeCoherent(host, depth, state, nextNode);
    AddNodeLogged(trace, state, nextNode);
  }


  /** Only a scope can host, so only a scope can be among the ancestors of a
      host: attaching anything else can never close a cycle. */
  lemma OnlyScopesAncestors(kind: map<NodeId, Kind>, host: Pointers, children: map<HostRef, set<NodeId>>,
                            depth: map<NodeId, nat>, whileActive: map<NodeId, NodeId>, nextNode: nat, nextRoot: nat,
                            n: NodeId, h: HostRef)
    requires Graph(kind, host, children, depth, whileActive, nextNode, nextRoot)
    requires n in kind && kind[n] != ScopeNode && HostIn(kind, nextRoot, h)
    ensures Sub(n) !in Ancestors(host, depth, h)
  {
    var a := Ancestors(host, depth, h);
    forall i | 0 <= i < |a| ensures a[i] != Sub(n) {
      if i > 0 {
        AncestorsAreHosts(host, depth, h, i);
        var m :| m in host && host[m] == Some(a[i]);
        assert HostIn(kind, nextRoot, host[m].value);
      }
    }
  }

  // ---------------------------------------------------------------------------
  // Successive cascades: an operation that changes several host pointers in
  // turn runs one cascade after each change.

  /** One cascade as it ran: the host pointers it ran under, the order in
      which it visited the nodes, and the states it left them in. */
  datatype Cascade = Cascade(host: Pointers, order: seq<NodeId>, after: map<NodeId, ActivityState>)

  /** The cascade ran under pointers for exactly the nodes of `kind`,
      visited every node once, parents before children under those pointers,
      and left every node in the state the local rule gives it there. */
  predicate Fits(kind: map<NodeId, Kind>, c: Cascade)
  {
    && c.after.Keys == kind.Keys && c.host.Keys == kind.Keys && Steady(c.host, c.after)
    && Covers(c.order, kind) && Distinct(c.order) && ParentFirst(c.order, c.host)
  }

  /** Every node's books after one cascade moved the states from `s` to
      `after`: each node ran its switch for its own move. */
  function SwitchAll(kind: map<NodeId, Kind>, b: map<NodeId, Book>, s: map<NodeId, ActivityState>, after: map<NodeId, ActivityState>): (r: map<NodeId, Book>)
    requires b.Keys == kind.Keys && s.Keys == kind.Keys && after.Keys == kind.Keys
    ensures r.Keys == kind.Keys
  {
    map x | x in kind :: Switched(b[x], s[x], after[x], kind[x] == HolderBehavior)
  }

  /** The store went from states `s0`, books `b0` and log `t0` to `state`,
      `books` and `trace` by running the cascades `cs` one after the other:
      the first cascade leaves its states, runs the switch of every node it
      moved and appends its rows to the log, and the rest go on from there. */
  ghost predicate Chained(kind: map<NodeId, Kind>,
                          s0: map<NodeId, ActivityState>, b0: map<NodeId, Book>, t0: seq<Entry>, cs: seq<Cascade>,
                          state: map<NodeId, ActivityState>, books: map<NodeId, Book>, trace: seq<Entry>)
    decreases |cs|
  {
    var ok :=
      && s0.Keys == kind.Keys && b0.Keys == kind.Keys
      && if cs == [] then state == s0 && books == b0 && trace == t0
         else
           var c := cs[0];
           && Fits(kind, c)
           && Chained(kind, c.after, SwitchAll(kind, b0, s0, c.after), t0 + Entries(c.order, s0, c.after), cs[1..],
                      state, books, trace);
    ok
  }

  /** No cascade leaves everything as it was. */
  lemma ChainedNone(kind: map<NodeId, Kind>, state: map<NodeId, ActivityState>, books: map<NodeId, Book>, trace: seq<Entry>)
    requires state.Keys == kind.Keys && books.Keys == kind.Keys
    ensures Chained(kind, state, books, trace, [], state, books, trace)
  {
  }

  /** One cascade, as `SetHost` reports it: the store it leaves is
      coherent with the new pointers, every node was recomputed once, parents
      first, and the trace and the books record exactly the switches. */
  ghost predicate Stepped(kind: map<NodeId, Kind>,
                          s0: map<NodeId, ActivityState>, b0: map<NodeId, Book>, t0: seq<Entry>,
                          host: Pointers, depth: map<NodeId, nat>, order: seq<NodeId>,
                          state: map<NodeId, ActivityState>, books: map<NodeId, Book>, trace: seq<Entry>)
  {
    var ok :=
      && Coherent(host, depth, state) && host.Keys == kind.Keys
      && s0.Keys == kind.Keys && b0.Keys == kind.Keys && books.Keys == kind.Keys && state.Keys == kind.Keys
      && Covers(order, kind) && Distinct(order) && ParentFirst(order, host)
      && trace == t0 + Entries(order, s0, state)
      && (forall x | x in kind :: books[x] == Switched(b0[x], s0[x], state[x], kind[x] == HolderBehavior));
    ok
  }

  /** One cascade makes a run of one. */
  lemma ChainedOne(kind: map<NodeId, Kind>,
                   s0: map<NodeId, ActivityState>, b0: map<NodeId, Book>, t0: seq<Entry>,
                   host: Pointers, depth: map<NodeId, nat>, order: seq<NodeId>,
                   state: map<NodeId, ActivityState>, books: map<NodeId, Book>, trace: seq<Entry>)
    requires Stepped(kind, s0, b0, t0, host, depth, order, state, books, trace)
    ensures Chained(kind, s0, b0, t0, [Cascade(host, order, state)], state, books, trace)
  {
    CoherentSteady(host, depth, state);
    var c := Cascade(host, order, state);
    assert [c][1..] == [];
    assert books == SwitchAll(kind, b0, s0, state);
  }

  /** A run of cascades followed by one more cascade is a run. */
  lemma ChainedStep(kind: map<NodeId, Kind>,
                    s0: map<NodeId, ActivityState>, b0: map<NodeId, Book>, t0: seq<Entry>, cs: seq<Cascade>,
                    s1: map<NodeId, ActivityState>, b1: map<NodeId, Book>, t1: seq<Entry>,
                    host: Pointers, depth: map<NodeId, nat>, order: seq<NodeId>,
                    state: map<NodeId, ActivityState>, books: map<NodeId, Book>, trace: seq<Entry>)
    requires Chained(kind, s0, b0, t0, cs, s1, b1, t1)
    requires Stepped(kind, s1, b1, t1, host, depth, order, state, books, trace)
    ensures Chained(kind, s0, b0, t0, cs + [Cascade(host, order, state)], state, books, trace)
  {
    ChainedOne(kind, s1, b1, t1, host, depth, order, state, books, trace);
    ChainedConcat(kind, s0, b0, t0, cs, s1, b1, t1, [Cascade(host, order, state)], state, books, trace);
  }

  /** Two runs of cascades, the second from where the first left the
      store, make one run. */
  lemma {:induction false} ChainedConcat(kind: map<NodeId, Kind>,
                    s0: map<NodeId, ActivityState>, b0: map<NodeId, Book>, t0: seq<Entry>, cs: seq<Cascade>,
                    s1: map<NodeId, ActivityState>, b1: map<NodeId, Book>, t1: seq<Entry>, ds: seq<Cascade>,
                    s2: map<NodeId, ActivityState>, b2: map<NodeId, Book>, t2: seq<Entry>)
    requires Chained(kind, s0, b0, t0, cs, s1, b1, t1)
    requires Chained(kind, s1, b1, t1, ds, s2, b2, t2)
    ensures Chained(kind, s0, b0, t0, cs + ds, s2, b2, t2)
    decreases |cs|
  {
    if cs == [] {
      assert cs + ds == ds;
    } else {
      var c := cs[0];
      ChainedConcat(kind, c.after, SwitchAll(kind, b0, s0, c.after), t0 + Entries(c.order, s0, c.after), cs[1..],
                    s1, b1, t1, ds, s2, b2, t2);
      assert (cs + ds)[1..] == cs[1..] + ds;
    }
  }

  /** A run of one cascade, taken apart: its states, the books its switches
      leave and the rows it appends to the log. */
  lemma ChainedSingle(kind: map<NodeId, Kind>,
                      s0: map<NodeId, ActivityState>, b0: map<NodeId, Book>, t0: seq<Entry>, cs: seq<Cascade>,
                      state: map<NodeId, ActivityState>, books: map<NodeId, Book>, trace: seq<Entry>)
    requires Chained(kind, s0, b0, t0, cs, state, books, trace) && |cs| == 1
    ensures Fits(kind, cs[0]) && s0.Keys == kind.Keys && b0.Keys == kind.Keys
    ensures state == cs[0].after && books == SwitchAll(kind, b0, s0, cs[0].after)
    ensures trace == t0 + Entries(cs[0].order, s0, cs[0].after)
  {
    assert cs[1..] == [];
  }

  /** When `w` is the only node whose state differs, the log gains `w`'s
      row of the switch, once, if `w` is visited at all. */
  lemma {:induction false} EntriesSingle(order: seq<NodeId>, s0: map<NodeId, ActivityState>, s1: map<NodeId, ActivityState>, w: NodeId)
    requires forall i | 0 <= i < |order| :: order[i] in s0 && order[i] in s1
    requires Distinct(order) && w in s0 && w in s1
    requires forall i | 0 <= i < |order| && order[i] != w :: s0[order[i]] == s1[order[i]]
    ensures Entries(order, s0, s1) == if w in order then Tag(w, Hooks(s0[w], s1[w])) else []
    decreases |order|
  {
    if order != [] {
      var prefix, x := order[..|order| - 1], Last(order);
      assert order == prefix + [x];
      EntriesSingle(prefix, s0, s1, w);
      if x == w {
        assert forall i | 0 <= i < |prefix| :: prefix[i] != w;
        assert w !in prefix;
        assert Entries(order, s0, s1) == [] + Tag(w, Hooks(s0[w], s1[w]));
      } else {
        assert Tag(x, Hooks(s0[x], s1[x])) == [];
        assert w in order <==> w in prefix;
      }
    }
  }

  /** A move that neither enters nor leaves the active state runs no switch
      that touches the books. */
  lemma SwitchAllQuiet(kind: map<NodeId, Kind>, b: map<NodeId, Book>, s: map<NodeId, ActivityState>,
                       w: NodeId, v: ActivityState)
    requires b.Keys == kind.Keys && s.Keys == kind.Keys && w in kind
    requires s[w] != Active && v != Active
    ensures SwitchAll(kind, b, s, s[w := v]) == b
  {
  }

  /** Attaching a detached non-scope `w` that nothing points at to a
      detached scope `s` moves `w` alone, from detached to attached: the
      books do not change, and the log gains `w`'s `willAttach`. */
  lemma ReceiverHosted(kind: map<NodeId, Kind>, nextRoot: nat, p0: Pointers, d0: map<NodeId, nat>,
                       s0: map<NodeId, ActivityState>, b0: map<NodeId, Book>, t0: seq<Entry>,
                       ptr: Pointers, depth: map<NodeId, nat>, cs: seq<Cascade>,
                       state: map<NodeId, ActivityState>, books: map<NodeId, Book>, trace: seq<Entry>,
                       s: NodeId, w: NodeId)
    requires Coherent(p0, d0, s0) && p0.Keys == kind.Keys && w in kind && kind[w] != ScopeNode
    requires s in p0 && p0[s] == None && p0[w] == None && s != w
    requires forall m | m in p0 && p0[m].Some? :: HostIn(kind, nextRoot, p0[m].value)
    requires ptr == p0[w := Some(Sub(s))] && Ranked(ptr, depth)
    requires Chained(kind, s0, b0, t0, cs, state, books, trace) && |cs| == 1 && cs[0].host == ptr
    ensures state == s0[w := Attached] && state[s] == Detached
    ensures books == b0 && trace == t0 + [Entry(w, WillAttach)]
  {
    ChainedSingle(kind, s0, b0, t0, cs, state, books, trace);
    DetachedIffUnhosted(p0, d0, s0);
    forall m | m in p0 ensures p0[m] != Some(Sub(w)) {
      if p0[m].Some? {
        assert HostIn(kind, nextRoot, p0[m].value);
      }
    }
    LeafRepoint(p0, d0, s0, w, Some(Sub(s)), depth);
    var moved := s0[w := FromHost(s0, Some(Sub(s)))];
    assert moved == s0[w := Attached];
    CoherentSteady(ptr, depth, moved);
    SteadyUnique(ptr, depth, cs[0].after, moved);
    SwitchAllQuiet(kind, b0, s0, w, Attached);
    EntriesSingle(cs[0].order, s0, cs[0].after, w);
    TableRows();
    assert Tag(w, [WillAttach]) == [Entry(w, WillAttach)];
  }

  /** Cascades only ever append to the log. */
  lemma {:induction false} ChainedGrows(kind: map<NodeId, Kind>,
                    s0: map<NodeId, ActivityState>, b0: map<NodeId, Book>, t0: seq<Entry>, cs: seq<Cascade>,
                    s1: map<NodeId, ActivityState>, b1: map<NodeId, Book>, t1: seq<Entry>)
    requires Chained(kind, s0, b0, t0, cs, s1, b1, t1)
    ensures t0 <= t1
    decreases |cs|
  {
    if cs != [] {
      var c := cs[0];
      ChainedGrows(kind, c.after, SwitchAll(kind, b0, s0, c.after), t0 + Entries(c.order, s0, c.after), cs[1..], s1, b1, t1);
    }
  }

  /** The pointers `p0` after each node of `ns`, in order, was pointed at
      `h`. */
  function Aimed(p0: Pointers, ns: seq<NodeId>, h: HostRef): Pointers
    decreases |ns|
  {
    if ns == [] then p0 else Aimed(p0, ns[..|ns| - 1], h)[Last(ns) := Some(h)]
  }

  /** Spelled out: the nodes of `ns` point at `h`, and every other node
      points where it did. */
  lemma {:induction false} AimedAt(p0: Pointers, ns: seq<NodeId>, h: HostRef)
    ensures forall x :: x in Aimed(p0, ns, h) <==> x in p0 || x in ns
    ensures forall i | 0 <= i < |ns| :: Aimed(p0, ns, h)[ns[i]] == Some(h)
    ensures forall x | x in p0 && x !in ns :: Aimed(p0, ns, h)[x] == p0[x]
    decreases |ns|
  {
    if ns != [] {
      var p := ns[..|ns| - 1];
      AimedAt(p0, p, h);
      assert forall x :: x in ns <==> x in p || x == Last(ns);
      forall i | 0 <= i < |ns| ensures Aimed(p0, ns, h)[ns[i]] == Some(h) {
        if i < |p| {
          assert ns[i] == p[i];
        }
      }
    }
  }

  /** Pointing one more node of `scopes` at `h`. */
  lemma AimedStep(p0: Pointers, scopes: seq<NodeId>, i: nat, h: HostRef)
    requires i < |scopes|
    ensures Aimed(p0, scopes[..i + 1], h) == Aimed(p0, scopes[..i], h)[scopes[i] := Some(h)]
  {
    assert scopes[..i + 1][..i] == scopes[..i];
  }

  /** The `j`-th cascade of `cs` ran under the pointers `p0` once the first
      `j + 1` nodes of `scopes` had been pointed at `h`. */
  predicate Ran(p0: Pointers, cs: seq<Cascade>, scopes: seq<NodeId>, h: HostRef)
    decreases |cs|
  {
    |cs| <= |scopes| &&
    (cs == [] || (Ran(p0, cs[..|cs| - 1], scopes, h) && Last(cs).host == Aimed(p0, scopes[..|cs|], h)))
  }

  /** One more scope pointed at `h` and its cascade run. */
  lemma RanSnoc(p0: Pointers, cs: seq<Cascade>, scopes: seq<NodeId>, h: HostRef, ptr: Pointers, c: Cascade)
    requires Ran(p0, cs, scopes, h) && |cs| < |scopes|
    requires ptr == Aimed(p0, scopes[..|cs|], h) && c.host == ptr[scopes[|cs|] := Some(h)]
    ensures Ran(p0, cs + [c], scopes, h) && c.host == Aimed(p0, scopes[..|cs| + 1], h)
  {
    AimedStep(p0, scopes, |cs|, h);
    assert (cs + [c])[..|cs|] == cs;
  }

  /** Spelled out: cascade `j` ran with the first `j + 1` nodes of `scopes`
      pointing at `h`. */
  lemma {:induction false} RanEach(p0: Pointers, cs: seq<Cascade>, scopes: seq<NodeId>, h: HostRef)
    requires Ran(p0, cs, scopes, h)
    ensures forall j | 0 <= j < |cs| :: cs[j].host == Aimed(p0, scopes[..j + 1], h)
    decreases |cs|
  {
    if cs != [] {
      var p := cs[..|cs| - 1];
      RanEach(p0, p, scopes, h);
      forall j | 0 <= j < |cs| ensures cs[j].host == Aimed(p0, scopes[..j + 1], h) {
        if j < |p| {
          assert cs[j] == p[j];
        }
      }
    }
  }

  /** Attaching `scopes` to `h`, the first `i` done: those cascades ran in
      order from `s0`, `b0`, `t0`, and the pointers are `p0` with the first
      `i` scopes pointed at `h`. */
  ghost predicate Attaching(kind: map<NodeId, Kind>, ptr: Pointers, state: map<NodeId, ActivityState>,
                            books: map<NodeId, Book>, trace: seq<Entry>, h: HostRef, scopes: seq<NodeId>, i: nat,
                            p0: Pointers, s0: map<NodeId, ActivityState>, b0: map<NodeId, Book>, t0: seq<Entry>,
                            cs: seq<Cascade>)
  {
    var ok :=
      && i == |cs| <= |scopes|
      && Chained(kind, s0, b0, t0, cs, state, books, trace)
      && Ran(p0, cs, scopes, h)
      && ptr == Aimed(p0, scopes[..i], h);
    ok
  }

  /** Every scope attached: the pointers are `p0` with all of `scopes`
      pointed at `h`. */
  lemma AttachedAll(kind: map<NodeId, Kind>, ptr: Pointers, state: map<NodeId, ActivityState>,
                    books: map<NodeId, Book>, trace: seq<Entry>, h: HostRef, scopes: seq<NodeId>,
                    p0: Pointers, s0: map<NodeId, ActivityState>, b0: map<NodeId, Book>, t0: seq<Entry>,
                    cs: seq<Cascade>)
    requires Attaching(kind, ptr, state, books, trace, h, scopes, |scopes|, p0, s0, b0, t0, cs)
    ensures ptr == Aimed(p0, scopes, h)
  {
    assert scopes[..|scopes|] == scopes;
  }

  /** The nodes a list names (a Swift `Set` built from an array). */
  function Elements(scopes: seq<NodeId>): (r: set<NodeId>)
    ensures forall i | 0 <= i < |scopes| :: scopes[i] in r
    ensures forall x | x in r :: x in scopes
  {
    set s | s in scopes
  }

  /** Detaching the one node `n` from `f` is at most a single update of the
      pointers. */
  lemma UnpointedOne(ptr0: Pointers, ptr: Pointers, nodes: set<NodeId>, released: set<NodeId>, n: NodeId, f: HostRef)
    requires ptr0.Keys == nodes && ptr.Keys == nodes && n in nodes && released == {n}
    requires forall x | x in nodes :: ptr[x] == if x in released && ptr0[x] == Some(f) then None else ptr0[x]
    ensures ptr == if ptr0[n] == Some(f) then ptr0[n := None] else ptr0
  {
    var ptr1 := if ptr0[n] == Some(f) then ptr0[n := None] else ptr0;
    forall x | x in nodes ensures ptr[x] == ptr1[x] {
    }
  }

  /** The child sets after node `n` moves to host `h` from its former host,
      if any. */
  function Rehosted(children: map<HostRef, set<NodeId>>, n: NodeId, former: Option<HostRef>, h: HostRef): map<HostRef, set<NodeId>>
    requires h in children && (former.Some? ==> former.value in children)
  {
    var joined := children[h := children[h] + {n}];
    match former
    case None => joined
    case Some(f) => joined[f := joined[f] - {n}]
  }

  /** A second update of the same key overrides the first. */
  lemma Overwrite<K, V>(m: map<K, V>, k: K, a: V, b: V)
    ensures m[k := a][k := b] == m[k := b]
  {
  }

  /** Pointing a node again at the host it points at changes nothing. */
  lemma PointAgain(ptr: Pointers, n: NodeId, v: Option<HostRef>)
    requires n in ptr && ptr[n] == v
    ensures ptr[n := v] == ptr
  {
  }

  /** After the nodes `done` have been told that `h` detaches them, starting
      from the pointers `ptr0`: those of them that pointed at `h` point
      nowhere, and every other node points where it did. */
  predicate Unpointed(ptr0: Pointers, ptr: Pointers, nodes: set<NodeId>, done: set<NodeId>, h: HostRef)
  {
    forall x | x in nodes :: x in ptr && x in ptr0 && ptr[x] == if x in done && ptr0[x] == Some(h) then None else ptr0[x]
  }

  /** Releasing everything a host holds leaves it holding nothing. */
  lemma NoneLeft(ns: set<NodeId>)
    ensures ns - ns == {}
  {
  }

  /** When `done` holds every node that pointed at `h`, the nodes that
      pointed at `h` are exactly the ones now pointing nowhere in its place. */
  lemma UnpointedAll(ptr0: Pointers, ptr: Pointers, nodes: set<NodeId>, done: set<NodeId>, h: HostRef)
    requires Unpointed(ptr0, ptr, nodes, done, h)
    requires forall x | x in ptr0 && ptr0[x] == Some(h) :: x in done
    ensures forall x | x in nodes :: x in ptr && x in ptr0 && ptr[x] == if ptr0[x] == Some(h) then None else ptr0[x]
  {
  }

  /** `n` sits under `h`: `h` is a host that retains `n` and that `n`
      points at, `n` lies above `h` nowhere, and the host `former` it had
      before, if any, is another host that still retains it. */
  ghost predicate Lodged(kind: map<NodeId, Kind>, nextRoot: nat, ptr: Pointers,
                         children: map<HostRef, set<NodeId>>, depth: map<NodeId, nat>,
                         n: NodeId, h: HostRef, former: Option<HostRef>)
  {
    var ok :=
      && n in kind && HostIn(kind, nextRoot, h) && h in children && n in children[h]
      && n in ptr && ptr[n] == Some(h)
      && (h.Sub? ==> h.scope in ptr && Ranked(ptr, depth) && Sub(n) !in Ancestors(ptr, depth, h))
      && (former.Some? ==> HostIn(kind, nextRoot, former.value) && former.value != h
                           && former.value in children && n in children[former.value]);
    ok
  }

  /** Node `n` may be hosted at `h`: both exist, and `n` is not `h` or
      above it. */
  ghost predicate Placeable(kind: map<NodeId, Kind>, nextRoot: nat, ptr: Pointers, depth: map<NodeId, nat>,
                            n: NodeId, h: HostRef)
  {
    var ok := n in kind && HostIn(kind, nextRoot, h)
              && (h.Sub? ==> h.scope in ptr && Ranked(ptr, depth) && Sub(n) !in Ancestors(ptr, depth, h));
    ok
  }

  /** Node `n` is retained by host `f` but no longer points at it. */
  ghost predicate Leaving(kind: map<NodeId, Kind>, nextRoot: nat, ptr: Pointers,
                          children: map<HostRef, set<NodeId>>, n: NodeId, f: HostRef)
  {
    var ok := n in kind && HostIn(kind, nextRoot, f) && f in children && n in children[f] && n in ptr && ptr[n] != Some(f);
    ok
  }

  /** What moving node `n` to host `h` made of the pointers `p0`, child
      sets `c0`, states `s0`, books `b0` and log `t0`: `n` points at `h`,
      which retains it, and its former host drops it; `n` has the state
      `h` gives it; one cascade `cs` leads to the new states, books and log,
      and none of them changes when `n` already had that state. */
  ghost predicate Moved(kind: map<NodeId, Kind>, ptr: Pointers, children: map<HostRef, set<NodeId>>,
                        state: map<NodeId, ActivityState>, books: map<NodeId, Book>, trace: seq<Entry>,
                        n: NodeId, h: HostRef, p0: Pointers, c0: map<HostRef, set<NodeId>>,
                        s0: map<NodeId, ActivityState>, b0: map<NodeId, Book>, t0: seq<Entry>,
                        cs: seq<Cascade>)
  {
    var ok :=
      && h in c0 && Pending(kind, ptr, c0[h := c0[h] + {n}], state, books, trace, n, h, p0, c0, s0, b0, t0, cs)
      && children == Rehosted(c0, n, p0[n], h)
      && state[n] == FromHost(state, Some(h));
    ok
  }

  /** Node `n` hosted at `h` but not yet dropped by its former host: the
      pointers are `p0` with `n` pointed at `h`, `h` retains `n` in
      addition to the child sets `c0`, and one cascade `cs` leads from
      `s0`, `b0`, `t0` to the states, books and log, none of which changes
      when `n` already had the state `h` gives. */
  ghost predicate Pending(kind: map<NodeId, Kind>, ptr: Pointers, children: map<HostRef, set<NodeId>>,
                          state: map<NodeId, ActivityState>, books: map<NodeId, Book>, trace: seq<Entry>,
                          n: NodeId, h: HostRef, p0: Pointers, c0: map<HostRef, set<NodeId>>,
                          s0: map<NodeId, ActivityState>, b0: map<NodeId, Book>, t0: seq<Entry>,
                          cs: seq<Cascade>)
  {
    var ok :=
      && n in p0 && n in s0 && n in state && h in c0 && (p0[n].Some? ==> p0[n].value in c0)
      && (h.Sub? ==> h.scope in state && h.scope in s0)
      && ptr == p0[n := Some(h)] && children == c0[h := c0[h] + {n}]
      && (s0[n] == FromHost(s0, Some(h)) ==> state == s0 && trace == t0 && books == b0)
      && Chained(kind, s0, b0, t0, cs, state, books, trace) && |cs| == 1 && cs[0].host == ptr;
    ok
  }

  /** The pointers `p0` after each node of `gone`, in order, was unhosted. */
  function Cut(p0: Pointers, gone: seq<NodeId>): Pointers
    decreases |gone|
  {
    if gone == [] then p0 else Cut(p0, gone[..|gone| - 1])[Last(gone) := None]
  }

  /** Spelled out: the nodes of `gone` point nowhere, and every other node
      points where it did. */
  lemma {:induction false} CutAt(p0: Pointers, gone: seq<NodeId>)
    ensures forall x :: x in Cut(p0, gone) <==> x in p0 || x in gone
    ensures forall i | 0 <= i < |gone| :: Cut(p0, gone)[gone[i]] == None
    ensures forall x | x in p0 && x !in gone :: Cut(p0, gone)[x] == p0[x]
    decreases |gone|
  {
    if gone != [] {
      var p := gone[..|gone| - 1];
      CutAt(p0, p);
      assert forall x :: x in gone <==> x in p || x == Last(gone);
      forall i | 0 <= i < |gone| ensures Cut(p0, gone)[gone[i]] == None {
        if i < |p| {
          assert gone[i] == p[i];
        }
      }
    }
  }

  /** The `j`-th cascade of `cs` ran under the pointers `p0` once the first
      `j + 1` nodes of `gone` had been unhosted. */
  predicate Dropped(p0: Pointers, cs: seq<Cascade>, gone: seq<NodeId>)
    decreases |cs|
  {
    |cs| == |gone| &&
    (cs == [] || (Dropped(p0, cs[..|cs| - 1], gone[..|gone| - 1]) && Last(cs).host == Cut(p0, gone)))
  }

  /** One more node unhosted and its cascade run. */
  lemma DroppedSnoc(p0: Pointers, cs: seq<Cascade>, gone: seq<NodeId>, ptr: Pointers, x: NodeId, c: Cascade)
    requires Dropped(p0, cs, gone) && ptr == Cut(p0, gone) && c.host == ptr[x := None]
    ensures Dropped(p0, cs + [c], gone + [x]) && c.host == Cut(p0, gone + [x])
  {
    assert (cs + [c])[..|cs|] == cs;
    assert (gone + [x])[..|gone|] == gone;
  }

  /** Spelled out: cascade `j` ran with the first `j + 1` nodes of `gone`
      unhosted. */
  /** Two positions of a list without repeats hold different nodes. */
  lemma Apart(ns: seq<NodeId>, i: nat, j: nat)
    requires Distinct(ns) && i < j < |ns|
    ensures ns[i] != ns[j]
  {
  }

  /** A list without repeats that holds `n` and nothing else is `[n]`. */
  lemma OnlyOne(ns: seq<NodeId>, n: NodeId)
    requires Distinct(ns) && n in ns && forall i | 0 <= i < |ns| :: ns[i] == n
    ensures ns == [n]
  {
    if |ns| > 1 {
      Apart(ns, 0, 1);
      assert false;
    }
  }

  /** Releasing one node that pointed at `h`: it alone is unhosted, by a
      single cascade run under the pointers that leave it without a host. */
  lemma DroppingOne(p0: Pointers, ptr: Pointers, h: HostRef, gone: seq<NodeId>, cs: seq<Cascade>, n: NodeId)
    requires Dropping(p0, ptr, {n}, h, gone, cs) && n in p0 && p0[n] == Some(h)
    ensures gone == [n] && |cs| == 1 && cs[0].host == p0[n := None]
  {
    assert n in Pointing(p0, {n}, h);
    assert Elements(gone) == {n};
    OnlyOne(gone, n);
    DroppedEach(p0, cs, gone);
    assert gone[..1] == [n];
    assert Cut(p0, [n]) == Cut(p0, [])[n := None] by {
      assert [n][..0] == [];
    }
  }

  lemma {:induction false} DroppedEach(p0: Pointers, cs: seq<Cascade>, gone: seq<NodeId>)
    requires Dropped(p0, cs, gone)
    ensures |cs| == |gone| && forall j | 0 <= j < |cs| :: cs[j].host == Cut(p0, gone[..j + 1])
    decreases |cs|
  {
    if cs != [] {
      var p := cs[..|cs| - 1];
      var g := gone[..|gone| - 1];
      DroppedEach(p0, p, g);
      forall j | 0 <= j < |cs| ensures cs[j].host == Cut(p0, gone[..j + 1]) {
        if j < |p| {
          assert cs[j] == p[j];
          assert gone[..j + 1] == g[..j + 1];
        } else {
          assert gone[..j + 1] == gone;
        }
      }
    }
  }

  /** The nodes of `ns` that point at `h` in `p0`. */
  function Pointing(p0: Pointers, ns: set<NodeId>, h: HostRef): set<NodeId>
  {
    set x | x in ns && x in p0 && p0[x] == Some(h)
  }

  /** `gone` lists, each once, the nodes of `ns` that pointed at `h` in
      `p0`. */
  predicate Listed(p0: Pointers, ns: set<NodeId>, h: HostRef, gone: seq<NodeId>)
  {
    Distinct(gone) && Elements(gone) == Pointing(p0, ns, h)
  }

  /** The nodes `gone` of `ns` were unhosted from `h` one at a time, in
      that order, leaving the pointers `ptr`, and cascade `j` of `cs` ran
      once the first `j + 1` of them had been. */
  ghost predicate Dropping(p0: Pointers, ptr: Pointers, ns: set<NodeId>, h: HostRef, gone: seq<NodeId>, cs: seq<Cascade>)
  {
    var ok := Listed(p0, ns, h, gone) && ptr == Cut(p0, gone) && Dropped(p0, cs, gone);
    ok
  }

  /** `Dropping` extended by a node `x` that pointed at `h`: it is
      unhosted, and its cascade `c` ran under the pointers that leaves. */
  lemma DroppingHit(p0: Pointers, ptr: Pointers, ns: set<NodeId>, h: HostRef, gone: seq<NodeId>, cs: seq<Cascade>,
                    x: NodeId, c: Cascade, depth': map<NodeId, nat>, state': map<NodeId, ActivityState>)
    requires Dropping(p0, ptr, ns, h, gone, cs)
    requires x !in ns && x in p0 && p0[x] == Some(h) && c.host == ptr[x := None]
    requires Coherent(ptr[x := None], depth', state')
    ensures Dropping(p0, ptr[x := None], ns + {x}, h, gone + [x], cs + [c])
    ensures forall y | y in Pointing(p0, ns + {x}, h) :: y in state' && state'[y] == Detached
    ensures x in Pointing(p0, ns + {x}, h) && |ns + {x}| == |ns| + 1
  {
    OneMore(ns, x);
    DroppedSnoc(p0, cs, gone, ptr, x, c);
    assert x !in Elements(gone);
    assert Elements(gone + [x]) == Elements(gone) + {x};
    assert Pointing(p0, ns + {x}, h) == Pointing(p0, ns, h) + {x};
    assert Distinct(gone + [x]) by {
      forall i | 0 <= i < |gone| ensures gone[i] != x {
        assert gone[i] in Elements(gone);
      }
    }
    DroppingDetached(p0, ptr[x := None], ns + {x}, h, gone + [x], cs + [c], depth', state');
  }

  /** `Dropping` extended by a node `x` that did not point at `h`: nothing
      changes. */
  lemma DroppingMiss(p0: Pointers, ptr: Pointers, ns: set<NodeId>, h: HostRef, gone: seq<NodeId>, cs: seq<Cascade>,
                     x: NodeId)
    requires Dropping(p0, ptr, ns, h, gone, cs)
    requires x in p0 && p0[x] != Some(h)
    ensures Dropping(p0, ptr, ns + {x}, h, gone, cs)
    ensures Pointing(p0, ns + {x}, h) == Pointing(p0, ns, h)
  {
    assert Pointing(p0, ns + {x}, h) == Pointing(p0, ns, h);
  }

  /** A node `x` the run has not reached still points where it did. */
  lemma DroppingAt(p0: Pointers, ptr: Pointers, ns: set<NodeId>, h: HostRef, gone: seq<NodeId>, cs: seq<Cascade>, x: NodeId)
    requires Dropping(p0, ptr, ns, h, gone, cs) && x in p0 && x !in ns
    ensures x in ptr && ptr[x] == p0[x]
  {
    CutAt(p0, gone);
    assert x !in Elements(gone);
  }

  /** Once a run has reached the nodes `ns`, those that pointed at `h`
      are detached. */
  lemma DroppingDetached(p0: Pointers, ptr: Pointers, ns: set<NodeId>, h: HostRef, gone: seq<NodeId>, cs: seq<Cascade>,
                         depth: map<NodeId, nat>, state: map<NodeId, ActivityState>)
    requires Dropping(p0, ptr, ns, h, gone, cs) && Coherent(ptr, depth, state)
    ensures forall x | x in Pointing(p0, ns, h) :: x in state && state[x] == Detached
  {
    CutAt(p0, gone);
    DetachedIffUnhosted(ptr, depth, state);
    forall x | x in Pointing(p0, ns, h) ensures x in state && state[x] == Detached {
      assert x in Elements(gone);
      var i :| 0 <= i < |gone| && gone[i] == x;
    }
  }

  /** What telling each of the nodes `ns` that `h` will detach it made of
      the pointers `p0`, the states `s0`, the books `b0` and the log `t0`
      (the runtime's new pointers, states, books and log being `ptr`,
      `state`, `books` and `trace`): those of `ns` that pointed at `h` point
      nowhere and are detached, every other node points where it did, and
      the states, books and log are those the cascades `cs` (at most one per
      node) lead to, in order; when none of `ns` pointed at `h`, nothing ran
      and nothing changed. */
  ghost predicate LetGo(kind: map<NodeId, Kind>, ptr: Pointers, state: map<NodeId, ActivityState>,
                        books: map<NodeId, Book>, trace: seq<Entry>, h: HostRef, ns: set<NodeId>,
                        p0: Pointers, s0: map<NodeId, ActivityState>, b0: map<NodeId, Book>, t0: seq<Entry>,
                        gone: seq<NodeId>, cs: seq<Cascade>)
  {
    && Releasing(kind, ptr, state, books, trace, h, ns, p0, s0, b0, t0, gone, cs)
    && Chained(kind, s0, b0, t0, cs, state, books, trace)
  }

  /** `LetGo` without the run of cascades: which pointers are cleared, that
      the released nodes are detached, and that nothing ran when nothing
      pointed at `h`. */
  ghost predicate Releasing(kind: map<NodeId, Kind>, ptr: Pointers, state: map<NodeId, ActivityState>,
                            books: map<NodeId, Book>, trace: seq<Entry>, h: HostRef, ns: set<NodeId>,
                            p0: Pointers, s0: map<NodeId, ActivityState>, b0: map<NodeId, Book>, t0: seq<Entry>,
                            gone: seq<NodeId>, cs: seq<Cascade>)
  {
    var ok :=
      && ns <= kind.Keys && p0.Keys == kind.Keys
      && Dropping(p0, ptr, ns, h, gone, cs)
      && (forall x | x in Pointing(p0, ns, h) :: x in state && state[x] == Detached)
      && (Pointing(p0, ns, h) == {} ==> state == s0 && trace == t0 && books == b0 && cs == [])
      && |cs| <= |ns|;
    ok
  }

  /** `Releasing` assembled from a step in which some pointer was cleared. */
  lemma ReleasingIntro(kind: map<NodeId, Kind>, ptr: Pointers, state: map<NodeId, ActivityState>,
                   books: map<NodeId, Book>, trace: seq<Entry>, h: HostRef, ns: set<NodeId>,
                   p0: Pointers, s0: map<NodeId, ActivityState>, b0: map<NodeId, Book>, t0: seq<Entry>,
                   gone: seq<NodeId>, cs: seq<Cascade>)
    requires ns <= kind.Keys && p0.Keys == kind.Keys
    requires Dropping(p0, ptr, ns, h, gone, cs)
    requires forall x | x in Pointing(p0, ns, h) :: x in state && state[x] == Detached
    requires Pointing(p0, ns, h) != {}
    requires |cs| <= |ns|
    ensures Releasing(kind, ptr, state, books, trace, h, ns, p0, s0, b0, t0, gone, cs)
  {
  }

  /** Adding a node not yet among `ns`. */
  lemma OneMore(ns: set<NodeId>, x: NodeId)
    requires x !in ns
    ensures |ns + {x}| == |ns| + 1
  {
  }

  /** Appending a run of one cascade. */
  /** A run of one cascade. */
  lemma FirstCascade(c: Cascade)
    ensures [] + [c] == [c]
  {
  }

  /** A run extended by no cascade is the same run. */
  lemma NoCascade(cs: seq<Cascade>)
    ensures cs + [] == cs
  {
  }

  lemma OneCascade(cs: seq<Cascade>, c: seq<Cascade>)
    requires |c| == 1
    ensures cs + c == cs + [c[0]]
  {
    assert c == [c[0]];
  }

  /** Nothing told yet: nothing changed. */
  lemma LetGoNone(kind: map<NodeId, Kind>, ptr: Pointers, state: map<NodeId, ActivityState>,
                  books: map<NodeId, Book>, trace: seq<Entry>, h: HostRef)
    requires ptr.Keys == kind.Keys && state.Keys == kind.Keys && books.Keys == kind.Keys
    ensures LetGo(kind, ptr, state, books, trace, h, {}, ptr, state, books, trace, [], [])
  {
    ChainedNone(kind, state, books, trace);
    assert Pointing(ptr, {}, h) == {};
    assert Elements([]) == {};
  }

  /** `Releasing` extended by a node `x` that pointed at `h`: it is unhosted
      and its cascade `c` runs. */
  lemma ReleasingHit(kind: map<NodeId, Kind>, ptr: Pointers, state: map<NodeId, ActivityState>,
                 books: map<NodeId, Book>, trace: seq<Entry>, h: HostRef, ns: set<NodeId>,
                 p0: Pointers, s0: map<NodeId, ActivityState>, b0: map<NodeId, Book>, t0: seq<Entry>,
                 gone: seq<NodeId>, cs: seq<Cascade>, x: NodeId, c: Cascade,
                 depth': map<NodeId, nat>, state': map<NodeId, ActivityState>, books': map<NodeId, Book>, trace': seq<Entry>)
    requires Releasing(kind, ptr, state, books, trace, h, ns, p0, s0, b0, t0, gone, cs)
    requires x in kind && x !in ns && x in p0 && p0[x] == Some(h)
    requires c.host == ptr[x := None] && Coherent(ptr[x := None], depth', state')
    ensures Releasing(kind, ptr[x := None], state', books', trace', h, ns + {x}, p0, s0, b0, t0, gone + [x], cs + [c])
  {
    DroppingHit(p0, ptr, ns, h, gone, cs, x, c, depth', state');
    ReleasingIntro(kind, ptr[x := None], state', books', trace', h, ns + {x}, p0, s0, b0, t0, gone + [x], cs + [c]);
  }

  /** `Releasing` extended by a node `x` that did not point at `h`: nothing
      runs. */
  lemma ReleasingMiss(kind: map<NodeId, Kind>, ptr: Pointers, state: map<NodeId, ActivityState>,
                  books: map<NodeId, Book>, trace: seq<Entry>, h: HostRef, ns: set<NodeId>,
                  p0: Pointers, s0: map<NodeId, ActivityState>, b0: map<NodeId, Book>, t0: seq<Entry>,
                  gone: seq<NodeId>, cs: seq<Cascade>, x: NodeId)
    requires Releasing(kind, ptr, state, books, trace, h, ns, p0, s0, b0, t0, gone, cs)
    requires x in kind && x !in ns && x in p0 && p0[x] != Some(h)
    ensures Releasing(kind, ptr, state, books, trace, h, ns + {x}, p0, s0, b0, t0, gone, cs)
  {
    DroppingMiss(p0, ptr, ns, h, gone, cs, x);
  }

  /** `Releasing` extended by one more node `x`: the cascade `c` it ran, if it
      pointed at `h`, leaves the pointers `ptr'` and the states `state'`. */
  lemma ReleasingStep(kind: map<NodeId, Kind>, ptr: Pointers, state: map<NodeId, ActivityState>,
                  books: map<NodeId, Book>, trace: seq<Entry>, h: HostRef, ns: set<NodeId>,
                  p0: Pointers, s0: map<NodeId, ActivityState>, b0: map<NodeId, Book>, t0: seq<Entry>,
                  gone0: seq<NodeId>, cs0: seq<Cascade>, x: NodeId, c: seq<Cascade>, gone: seq<NodeId>,
                  ptr': Pointers, depth': map<NodeId, nat>, state': map<NodeId, ActivityState>,
                  books': map<NodeId, Book>, trace': seq<Entry>)
    requires Releasing(kind, ptr, state, books, trace, h, ns, p0, s0, b0, t0, gone0, cs0)
    requires x in kind && x !in ns && Coherent(ptr', depth', state')
    requires x in ptr && ptr[x] == p0[x]
    requires ptr[x] == Some(h) ==> ptr' == ptr[x := None] && |c| == 1 && c[0].host == ptr'
    requires ptr[x] != Some(h) ==> ptr' == ptr && state' == state && trace' == trace && books' == books && c == []
    requires gone == if ptr[x] == Some(h) then gone0 + [x] else gone0
    ensures Releasing(kind, ptr', state', books', trace', h, ns + {x}, p0, s0, b0, t0, gone, cs0 + c)
  {
    if ptr[x] == Some(h) {
      OneCascade(cs0, c);
      ReleasingHit(kind, ptr, state, books, trace, h, ns, p0, s0, b0, t0, gone0, cs0, x, c[0], depth', state', books', trace');
    } else {
      assert cs0 + c == cs0;
      ReleasingMiss(kind, ptr, state, books, trace, h, ns, p0, s0, b0, t0, gone0, cs0, x);
    }
  }

  /** Spelled out: the nodes of `ns` that pointed at `h` point nowhere,
      and every other node points where it did. */
  lemma LetGoUnpointed(kind: map<NodeId, Kind>, ptr: Pointers, state: map<NodeId, ActivityState>,
                       books: map<NodeId, Book>, trace: seq<Entry>, h: HostRef, ns: set<NodeId>,
                       p0: Pointers, s0: map<NodeId, ActivityState>, b0: map<NodeId, Book>, t0: seq<Entry>,
                       gone: seq<NodeId>, cs: seq<Cascade>)
    requires LetGo(kind, ptr, state, books, trace, h, ns, p0, s0, b0, t0, gone, cs)
    ensures Unpointed(p0, ptr, kind.Keys, ns, h)
    ensures forall x | x in ns && x in ptr :: ptr[x] != Some(h)
  {
    CutAt(p0, gone);
    forall x | x in kind.Keys
      ensures x in ptr && x in p0 && ptr[x] == if x in ns && p0[x] == Some(h) then None else p0[x]
    {
      if x in ns && p0[x] == Some(h) {
        assert x in Pointing(p0, ns, h);
        var i :| 0 <= i < |gone| && gone[i] == x;
      } else {
        assert x !in Pointing(p0, ns, h);
      }
    }
  }

  /** Moving `x` from the nodes still to do, `rest`, to those `done`. */
  lemma MoveOne(released: set<NodeId>, rest: set<NodeId>, done: set<NodeId>, x: NodeId)
    requires rest <= released && done == released - rest && x in rest
    ensures rest - {x} <= released && done + {x} == released - (rest - {x}) && x !in done
  {
  }

  /** Nothing left to do: every node is done. */
  lemma AllDone(released: set<NodeId>, rest: set<NodeId>, done: set<NodeId>)
    requires rest == {} && done == released - rest
    ensures done == released
  {
  }

  class Runtime {
    /** What each node is. */
    var kind: map<NodeId, Kind>
    /** `BehaviorComponent.hostSubject` of each node. */
    var host: Pointers
    /** `HostComponent.subscopesSubject` of each root and scope. */
    var children: map<HostRef, set<NodeId>>
    /** `stateMulticastSubject` of each node: the state it last published. */
    var state: map<NodeId, ActivityState>
    /** Every lifecycle callback run so far, in order. */
    var trace: seq<Entry>
    var nextNode: nat
    var nextRoot: nat
    /** The while-active holder behaviour of each scope. */
    var whileActive: map<NodeId, NodeId>
    /** The counters of each node's holders: `behaviorCancellableHolder`,
        and for a while-active holder behaviour the holder its `receive`
        fills. */
    var books: map<NodeId, Book>
    /** A ranking of the host pointers: a witness that they are acyclic. */
    ghost var depth: map<NodeId, nat>

    predicate IsHost(h: HostRef)
      reads this
    {
      HostIn(kind, nextRoot, h)
    }

    ghost predicate Valid()
      reads this
    {
      var ok := Invariant(kind, host, children, depth, whileActive, nextNode, nextRoot, state, books, trace); ok
    }

    // -------------------------------------------------------------------------
    // One node's lifecycle

    /** `activate`: `willActivate` produces this window's work, the behaviour
        holder receives it (a new window is opened), then `didActivate` runs. */
    method Activate(n: NodeId)
      requires n in books
      modifies this`books, this`trace
      ensures books == old(books)[n := old(books[n]).(windows := old(books[n]).windows + 1)]
      ensures trace == old(trace) + [Entry(n, WillActivate), Entry(n, Stored), Entry(n, DidActivate)]
    {
      trace := trace + [Entry(n, WillActivate)];
      books := books[n := books[n].(windows := books[n].windows + 1)];
      trace := trace + [Entry(n, Stored)];
      trace := trace + [Entry(n, DidActivate)];
    }

    /** `deactivate`: `willDeactivate` runs, the behaviour holder is reset
        (cancelling the window's work), then `didDeactivate` runs, which for a
        while-active holder behaviour resets its own holder as well (closing
        its items window). */
    method Deactivate(n: NodeId)
      requires n in books && n in kind
      modifies this`books, this`trace
      ensures books == old(books)[n := if kind[n] == HolderBehavior then old(books[n]).(start := old(books[n]).received) else old(books[n])]
      ensures trace == old(trace) + [Entry(n, WillDeactivate), Entry(n, Released), Entry(n, DidDeactivate)]
    {
      trace := trace + [Entry(n, WillDeactivate)];
      trace := trace + [Entry(n, Released)];
      trace := trace + [Entry(n, DidDeactivate)];
      if kind[n] == HolderBehavior {
        books := books[n := books[n].(start := books[n].received)];
      }
    }

    /** The lifecycle switch of node `n` when its published state becomes
        `next`: the cached state is updated, and the callbacks of the row for
        (previous, next) run. An unchanged state fires nothing (duplicates are
        removed before the switch). */
    method Transition(n: NodeId, next: ActivityState)
      requires n in state && n in books && n in kind
      modifies this`state, this`trace, this`books
      ensures state == old(state)[n := next]
      ensures trace == old(trace) + Tag(n, Hooks(old(state[n]), next))
      ensures books == old(books)[n := Switched(old(books[n]), old(state[n]), next, kind[n] == HolderBehavior)]
    {
      var previous := state[n];
      TagRows(n, previous, next);
      if previous == next {
        assert state[n := next] == state && books[n := books[n]] == books;
      } else if next == Active {
        state := state[n := next];
        if previous == Detached {
          trace := trace + [Entry(n, WillAttach)];
        }
        Activate(n);
      } else if previous == Active {
        state := state[n := next];
        Deactivate(n);
        if next == Detached {
          trace := trace + [Entry(n, DidDetach)];
        }
      } else {
        assert books[n := books[n]] == books;
        state := state[n := next];
        trace := trace + [Entry(n, if next == Attached then WillAttach else DidDetach)];
      }
    }

    /** One step of a cascade: a pending node whose host has settled
        recomputes its state from its host's and runs its switch. */
    method Visit(ghost s0: map<NodeId, ActivityState>, ghost b0: map<NodeId, Book>, ghost t0: seq<Entry>, ghost coherent: bool,
                 ghost order: seq<NodeId>, pending: set<NodeId>) returns (m: NodeId)
      requires pending != {}
      requires Fixed(kind, host, depth, s0, b0)
      requires Propagation(kind, host, s0, b0, t0, coherent, state, books, trace, order, pending)
      modifies this`state, this`trace, this`books
      ensures m in pending
      ensures Propagation(kind, host, s0, b0, t0, coherent, state, books, trace, order + [m], pending - {m})
    {
      PropagationNext(kind, host, depth, s0, b0, t0, coherent, state, books, trace, order, pending);
      m :| m in pending && !HostPending(host, m, pending);
      ghost var state0, books0, trace0 := state, books, trace;
      Transition(m, LocalRule(host, state, m));
      PropagationStep(kind, host, s0, b0, t0, coherent, state0, books0, trace0, order, pending, m, state, books, trace);
    }

    /** The state publishers of every node recompute, each from its host's
        published state, parents before children; each node whose state
        changes runs its switch. Afterwards every cached state is the derived
        one. When the states already agreed with the host pointers, nothing
        changes and no callback fires. */
    method Propagate() returns (ghost order: seq<NodeId>)
      requires Fixed(kind, host, depth, state, books)
      modifies this`state, this`trace, this`books
      ensures Coherent(host, depth, state)
      ensures state.Keys == kind.Keys && books.Keys == kind.Keys
      ensures Covers(order, kind) && Distinct(order) && ParentFirst(order, host)
      ensures trace == old(trace) + Entries(order, old(state), state)
      ensures forall x | x in kind :: books[x] == Switched(old(books)[x], old(state)[x], state[x], kind[x] == HolderBehavior)
      ensures Coherent(host, depth, old(state)) ==> state == old(state) && trace == old(trace) && books == old(books)
    {
      ghost var coherent := Coherent(host, depth, state);
      ghost var s0, b0, t0 := state, books, trace;
      PropagationStart(kind, host, depth, state, books, trace, coherent);
      order := [];
      var pending := kind.Keys;
      while pending != {}
        invariant Propagation(kind, host, s0, b0, t0, coherent, state, books, trace, order, pending)
        decreases pending
      {
        var m := Visit(s0, b0, t0, coherent, order, pending);
        order := order + [m];
        pending := pending - {m};
      }
      PropagationDone(kind, host, depth, s0, b0, t0, coherent, state, books, trace, order);
    }

    /** A cascade over a well-formed graph: afterwards the invariant holds
        again. */
    method Recompute() returns (ghost order: seq<NodeId>)
      requires Graph(kind, host, children, depth, whileActive, nextNode, nextRoot)
      requires Accounted(kind, state, books) && TraceIn(trace, nextNode) && Logged(trace, state)
      modifies this`state, this`trace, this`books
      ensures Valid()
      ensures Covers(order, kind) && Distinct(order) && ParentFirst(order, host)
      ensures trace == old(trace) + Entries(order, old(state), state)
      ensures forall x | x in kind :: books[x] == Switched(old(books)[x], old(state)[x], state[x], kind[x] == HolderBehavior)
      ensures Coherent(host, depth, old(state)) ==> state == old(state) && trace == old(trace) && books == old(books)
    {
      ghost var s0, b0, t0 := state, books, trace;
      order := Propagate();
      Recascaded(kind, host, children, depth, whileActive, nextNode, nextRoot, s0, b0, t0, state, books, trace, order);
    }

    // -------------------------------------------------------------------------
    // The host pointer

    /** `hostSubject.send`: the node's host pointer becomes `v`, and the state
        publishers below it recompute. The host named must already retain
        the node, and may not lie below it. When the new host gives the node
        the state it already publishes, no state changes and no callback
        fires. */
    method SetHost(n: NodeId, v: Option<HostRef>) returns (ghost order: seq<NodeId>)
      requires Valid() && n in kind
      requires v.Some? ==> IsHost(v.value) && n in children[v.value]
      requires v.Some? && v.value.Sub? ==> Sub(n) !in Ancestors(host, depth, v.value)
      modifies this`host, this`depth, this`state, this`trace, this`books
      ensures Valid()
      ensures host == old(host)[n := v]
      ensures Covers(order, kind) && Distinct(order) && ParentFirst(order, host)
      ensures trace == old(trace) + Entries(order, old(state), state)
      ensures forall x | x in kind :: books[x] == Switched(old(books)[x], old(state)[x], state[x], kind[x] == HolderBehavior)
      ensures FromHost(old(state), v) == old(state)[n] ==> state == old(state) && trace == old(trace) && books == old(books)
      ensures Stepped(kind, old(state), old(books), old(trace), host, depth, order, state, books, trace)
    {
      ghost var ptr, ranks := host, depth;
      depth := Repoint(kind, host, children, depth, whileActive, nextNode, nextRoot, n, v);
      host := host[n := v];
      if FromHost(state, v) == state[n] {
        QuietRepoint(ptr, ranks, state, n, v, depth);
      }
      order := Recompute();
    }

    /** `willDetach(from:)`: the node forgets its host, but only when that host
        is `h`; a call from any other host (a former one) is ignored. The
        cascade it runs, if any, extends whatever run of cascades led from
        `s0`, `b0` and `t0` to the store as it is. */
    method WillDetach(n: NodeId, h: HostRef, ghost s0: map<NodeId, ActivityState>, ghost b0: map<NodeId, Book>,
                      ghost t0: seq<Entry>, ghost cs0: seq<Cascade>) returns (ghost cs: seq<Cascade>)
      requires Valid() && n in kind
      requires Chained(kind, s0, b0, t0, cs0, state, books, trace)
      modifies this`host, this`depth, this`state, this`trace, this`books
      ensures Valid()
      ensures old(host[n]) == Some(h) ==>
                host == old(host)[n := None] && state[n] == Detached && |cs| == 1 && cs[0].host == host
      ensures old(host[n]) != Some(h) ==>
                host == old(host) && state == old(state) && trace == old(trace) && books == old(books) && cs == []
      ensures Chained(kind, s0, b0, t0, cs0 + cs, state, books, trace)
    {
      if host[n] == Some(h) {
        ghost var c := Unhost(n, s0, b0, t0, cs0);
        cs := [c];
      } else {
        cs := [];
        NoCascade(cs0);
      }
    }

    /** The node's host pointer is cleared: it is detached, and the cascade
        this runs extends whatever run of cascades led from `s0`, `b0` and
        `t0` to the store as it is. */
    method Unhost(n: NodeId, ghost s0: map<NodeId, ActivityState>, ghost b0: map<NodeId, Book>,
                  ghost t0: seq<Entry>, ghost cs0: seq<Cascade>) returns (ghost c: Cascade)
      requires Valid() && n in kind
      requires Chained(kind, s0, b0, t0, cs0, state, books, trace)
      modifies this`host, this`depth, this`state, this`trace, this`books
      ensures Valid()
      ensures host == old(host)[n := None] && state[n] == Detached && c.host == host
      ensures Chained(kind, s0, b0, t0, cs0 + [c], state, books, trace)
    {
      ghost var s1, b1, t1 := state, books, trace;
      ghost var order := SetHost(n, None);
      assert state[n] == Derived(host, depth, n);
      c := Cascade(host, order, state);
      ChainedStep(kind, s0, b0, t0, cs0, s1, b1, t1, host, depth, order, state, books, trace);
    }

    /** `didAttach(to:)` as `ScopedBehaviorImpl` provides it: the node now
        points at the host that has just retained it, and the cascade this
        runs extends whatever run of cascades led from `s0`, `b0` and `t0`
        to the store as it is. */
    method DidAttach(n: NodeId, h: HostRef, ghost s0: map<NodeId, ActivityState>, ghost b0: map<NodeId, Book>,
                     ghost t0: seq<Entry>, ghost cs0: seq<Cascade>) returns (ghost c: Cascade)
      requires Valid() && n in kind && IsHost(h) && n in children[h]
      requires h.Sub? ==> Sub(n) !in Ancestors(host, depth, h)
      requires Chained(kind, s0, b0, t0, cs0, state, books, trace)
      modifies this`host, this`depth, this`state, this`trace, this`books
      ensures Valid()
      ensures host == old(host)[n := Some(h)]
      ensures old(state[n]) == FromHost(old(state), Some(h)) ==> state == old(state) && trace == old(trace) && books == old(books)
      ensures Chained(kind, s0, b0, t0, cs0 + [c], state, books, trace)
      ensures c.host == host
    {
      ghost var s1, b1, t1 := state, books, trace;
      ghost var order := SetHost(n, Some(h));
      c := Cascade(host, order, state);
      ChainedStep(kind, s0, b0, t0, cs0, s1, b1, t1, host, depth, order, state, books, trace);
    }

    // -------------------------------------------------------------------------
    // The child set of a host

    /** The host's child set takes in the nodes `ns` (a set union: a node
        already there is not added twice). */
    method Retain(h: HostRef, ns: set<NodeId>)
      requires Valid() && IsHost(h) && ns <= kind.Keys
      modifies this`children
      ensures Valid()
      ensures children == old(children)[h := old(children[h]) + ns]
      ensures state == old(state) && books == old(books) && trace == old(trace)
    {
      RetainKeeps(kind, host, children, depth, whileActive, nextNode, nextRoot, h, ns);
      children := children[h := children[h] + ns];
    }

    /** The host's child set drops the nodes `ns`, none of which points at it
        any more. */
    method Release(h: HostRef, ns: set<NodeId>, ghost p0: Pointers, ghost s0: map<NodeId, ActivityState>,
                   ghost b0: map<NodeId, Book>, ghost t0: seq<Entry>, ghost gone: seq<NodeId>, ghost cs: seq<Cascade>)
      requires Valid() && IsHost(h) && forall x | x in ns && x in host :: host[x] != Some(h)
      requires LetGo(kind, host, state, books, trace, h, ns, p0, s0, b0, t0, gone, cs)
      modifies this`children
      ensures Valid()
      ensures children == old(children)[h := old(children[h]) - ns]
      ensures LetGo(kind, host, state, books, trace, h, ns, p0, s0, b0, t0, gone, cs)
    {
      ReleaseKeeps(kind, host, children, depth, whileActive, nextNode, nextRoot, h, ns);
      children := children[h := children[h] - ns];
    }

    /** `attachSubscopes(_:to:)` (also `host` of a scope and `attachSubscopes`
        of a root): the host's child set becomes its union with `scopes`, then
        each of them, in order, is told it was attached and points at the
        host, deriving its state from the host's. The host's own chain of
        ancestors is untouched, since none of `scopes` lies above it. When
        every one of them already has the state the host gives, no callback
        fires. */
    method AttachSubscopes(h: HostRef, scopes: seq<NodeId>) returns (ghost cs: seq<Cascade>)
      requires Valid() && IsHost(h)
      requires forall i | 0 <= i < |scopes| :: scopes[i] in kind
      requires h.Sub? ==> forall i | 0 <= i < |scopes| :: Sub(scopes[i]) !in Ancestors(host, depth, h)
      modifies this`children, this`host, this`depth, this`state, this`trace, this`books
      ensures Valid()
      ensures children == old(children)[h := old(children[h]) + Elements(scopes)]
      ensures forall i | 0 <= i < |scopes| :: host[scopes[i]] == Some(h)
      ensures forall x | x in kind && x !in scopes :: host[x] == old(host[x])
      ensures forall i | 0 <= i < |scopes| :: state[scopes[i]] == FromHost(state, Some(h))
      ensures h.Sub? ==> Ancestors(host, depth, h) == old(Ancestors(host, depth, h))
      ensures (forall i | 0 <= i < |scopes| :: old(state[scopes[i]]) == FromHost(old(state), Some(h))) ==>
                state == old(state) && trace == old(trace) && books == old(books)
      ensures Chained(kind, old(state), old(books), old(trace), cs, state, books, trace)
      ensures |cs| == |scopes| && Ran(old(host), cs, scopes, h)
    {
      Retain(h, Elements(scopes));
      cs := DidAttachEach(h, scopes);
      HostedStates(host, depth, state, scopes, h);
    }

    /** `attachSubscopes(_:to:)` as the concrete `Behavior` and `Scope` run
        it: their own `didAttach(to:)` is empty and replaces the default that
        would send the host pointer, so the host retains `scopes` and nothing
        else happens. No node learns its host, and none changes state, even
        when the host is active. */
    method AttachSubscopesAsWritten(h: HostRef, scopes: seq<NodeId>)
      requires Valid() && IsHost(h)
      requires forall i | 0 <= i < |scopes| :: scopes[i] in kind
      modifies this`children
      ensures Valid()
      ensures children == old(children)[h := old(children[h]) + Elements(scopes)]
    {
      Retain(h, Elements(scopes));
    }

    /** The second half of `attachSubscopes`: each of `scopes`, in order,
        is told it was attached to `h`, which already retains it. */
    method DidAttachEach(h: HostRef, scopes: seq<NodeId>) returns (ghost cs: seq<Cascade>)
      requires Valid() && IsHost(h)
      requires forall i | 0 <= i < |scopes| :: scopes[i] in kind && scopes[i] in children[h]
      requires h.Sub? ==> forall i | 0 <= i < |scopes| :: Sub(scopes[i]) !in Ancestors(host, depth, h)
      modifies this`host, this`depth, this`state, this`trace, this`books
      ensures Valid()
      ensures forall i | 0 <= i < |scopes| :: host[scopes[i]] == Some(h)
      ensures forall x | x in kind && x !in scopes :: host[x] == old(host[x])
      ensures h.Sub? ==> Ancestors(host, depth, h) == old(Ancestors(host, depth, h))
      ensures (forall i | 0 <= i < |scopes| :: old(state[scopes[i]]) == FromHost(old(state), Some(h))) ==>
                state == old(state) && trace == old(trace) && books == old(books)
      ensures Chained(kind, old(state), old(books), old(trace), cs, state, books, trace)
      ensures |cs| == |scopes| && Ran(old(host), cs, scopes, h)
    {
      ghost var quiet := forall i | 0 <= i < |scopes| :: state[scopes[i]] == FromHost(state, Some(h));
      ghost var above := if h.Sub? then Ancestors(host, depth, h) else [];
      ghost var s0, b0, t0 := state, books, trace;
      cs := [];
      ChainedNone(kind, state, books, trace);
      assert scopes[..0] == [];
      var i := 0;
      while i < |scopes|
        invariant 0 <= i <= |scopes|
        invariant Valid()
        invariant h.Sub? ==> Ancestors(host, depth, h) == above
        invariant quiet ==> state == s0 && trace == t0 && books == b0
        invariant Attaching(kind, host, state, books, trace, h, scopes, i, old(host), s0, b0, t0, cs)
      {
        cs := AttachNext(h, scopes, i, old(host), s0, b0, t0, cs);
        i := i + 1;
      }
      AttachedAll(kind, host, state, books, trace, h, scopes, old(host), s0, b0, t0, cs);
      AimedAt(old(host), scopes, h);
    }

    /** The step of `DidAttachEach` that attaches `scopes[i]`. */
    method AttachNext(h: HostRef, scopes: seq<NodeId>, i: nat, ghost p0: Pointers, ghost s0: map<NodeId, ActivityState>,
                      ghost b0: map<NodeId, Book>, ghost t0: seq<Entry>, ghost cs0: seq<Cascade>)
      returns (ghost cs: seq<Cascade>)
      requires Valid() && IsHost(h) && i < |scopes| && scopes[i] in kind && scopes[i] in children[h]
      requires h.Sub? ==> Sub(scopes[i]) !in Ancestors(host, depth, h)
      requires Attaching(kind, host, state, books, trace, h, scopes, i, p0, s0, b0, t0, cs0)
      modifies this`host, this`depth, this`state, this`trace, this`books
      ensures Valid()
      ensures Attaching(kind, host, state, books, trace, h, scopes, i + 1, p0, s0, b0, t0, cs)
      ensures h.Sub? ==> Ancestors(host, depth, h) == old(Ancestors(host, depth, h))
      ensures old(state[scopes[i]]) == FromHost(old(state), Some(h)) ==>
                state == old(state) && trace == old(trace) && books == old(books)
    {
      ghost var ptr, ranks := host, depth;
      ghost var c := DidAttach(scopes[i], h, s0, b0, t0, cs0);
      if h.Sub? {
        AncestorsFrame(ptr, ranks, host, depth, scopes[i], Some(h), h);
      }
      RanSnoc(p0, cs0, scopes, h, ptr, c);
      cs := cs0 + [c];
    }

    /** Each of the nodes `released` is told, one at a time and in no
        particular order, that host `h` will detach it, and those still
        pointing at `h` drop their pointer (and go detached); then the child
        set of `h` loses them all. */
    method DetachEach(h: HostRef, released: set<NodeId>) returns (ghost gone: seq<NodeId>, ghost cs: seq<Cascade>)
      requires Valid() && IsHost(h) && released <= kind.Keys
      modifies this`children, this`host, this`depth, this`state, this`trace, this`books
      ensures Valid()
      ensures children == old(children)[h := old(children[h]) - released]
      ensures LetGo(kind, host, state, books, trace, h, released, old(host), old(state), old(books), old(trace), gone, cs)
    {
      gone, cs := WillDetachEach(h, released);
      Release(h, released, old(host), old(state), old(books), old(trace), gone, cs);
    }

    /** The first half of detaching: each of `released`, one at a time and in
        no particular order, is told that `h` will detach it. */
    method WillDetachEach(h: HostRef, released: set<NodeId>) returns (ghost gone: seq<NodeId>, ghost cs: seq<Cascade>)
      requires Valid() && released <= kind.Keys
      modifies this`host, this`depth, this`state, this`trace, this`books
      ensures Valid()
      ensures LetGo(kind, host, state, books, trace, h, released, old(host), old(state), old(books), old(trace), gone, cs)
      ensures forall x | x in released && x in host :: host[x] != Some(h)
    {
      ghost var p0, s0, b0, t0 := host, state, books, trace;
      LetGoNone(kind, host, state, books, trace, h);
      gone, cs := [], [];
      var rest := released;
      ghost var done: set<NodeId> := {};
      while rest != {}
        invariant rest <= released && done == released - rest
        invariant Valid()
        invariant LetGo(kind, host, state, books, trace, h, done, p0, s0, b0, t0, gone, cs)
        decreases rest
      {
        var x :| x in rest;
        gone, cs := DetachNext(h, x, done, p0, s0, b0, t0, gone, cs);
        MoveOne(released, rest, done, x);
        rest := rest - {x};
        done := done + {x};
      }
      AllDone(released, rest, done);
      LetGoUnpointed(kind, host, state, books, trace, h, released, p0, s0, b0, t0, gone, cs);
    }

    /** The step of `WillDetachEach` that tells `x`, one of the nodes not
        yet `done`. */
    method DetachNext(h: HostRef, x: NodeId, ghost done: set<NodeId>, ghost p0: Pointers,
                      ghost s0: map<NodeId, ActivityState>, ghost b0: map<NodeId, Book>, ghost t0: seq<Entry>,
                      ghost gone0: seq<NodeId>, ghost cs0: seq<Cascade>)
      returns (ghost gone: seq<NodeId>, ghost cs: seq<Cascade>)
      requires Valid() && x in kind && x !in done
      requires LetGo(kind, host, state, books, trace, h, done, p0, s0, b0, t0, gone0, cs0)
      modifies this`host, this`depth, this`state, this`trace, this`books
      ensures Valid()
      ensures LetGo(kind, host, state, books, trace, h, done + {x}, p0, s0, b0, t0, gone, cs)
    {
      ghost var ptr, s1, b1, t1 := host, state, books, trace;
      DroppingAt(p0, ptr, done, h, gone0, cs0, x);
      ghost var c := WillDetach(x, h, s0, b0, t0, cs0);
      gone := if ptr[x] == Some(h) then gone0 + [x] else gone0;
      ReleasingStep(kind, ptr, s1, b1, t1, h, done, p0, s0, b0, t0, gone0, cs0, x, c, gone, host, depth, state, books, trace);
      cs := cs0 + c;
    }

    /** `detachSubscopes(_:from:)` (also `evict` of a scope and
        `detachSubscopes` of a root): releases exactly the named nodes the
        host holds, and returns them. Nodes not named, and named nodes the
        host does not hold, are left alone. Never fails. */
    method DetachSubscopes(h: HostRef, scopes: seq<NodeId>)
      returns (released: set<NodeId>, ghost gone: seq<NodeId>, ghost cs: seq<Cascade>)
      requires Valid() && IsHost(h)
      modifies this`children, this`host, this`depth, this`state, this`trace, this`books
      ensures released == old(children[h]) * Elements(scopes)
      ensures Valid()
      ensures children == old(children)[h := old(children[h]) - released]
      ensures LetGo(kind, host, state, books, trace, h, released, old(host), old(state), old(books), old(trace), gone, cs)
    {
      released := children[h] * Elements(scopes);
      gone, cs := DetachEach(h, released);
    }

    /** `detachAllSubscopes(from:)` (also `evictAll` of a scope and
        `detachAllSubscopes` of a root): releases every node the host holds,
        leaving its child set empty, and returns what it held. */
    method DetachAllSubscopes(h: HostRef) returns (released: set<NodeId>, ghost gone: seq<NodeId>, ghost cs: seq<Cascade>)
      requires Valid() && IsHost(h)
      modifies this`children, this`host, this`depth, this`state, this`trace, this`books
      ensures released == old(children[h])
      ensures Valid()
      ensures children == old(children)[h := {}]
      ensures forall x | x in kind :: host[x] == if old(host[x]) == Some(h) then None else old(host[x])
      ensures LetGo(kind, host, state, books, trace, h, released, old(host), old(state), old(books), old(trace), gone, cs)
    {
      released := children[h];
      assert forall x | x in host && host[x] == Some(h) :: x in released;
      ghost var p0 := host;
      gone, cs := DetachEach(h, released);
      LetGoUnpointed(kind, host, state, books, trace, h, released, p0, old(state), old(books), old(trace), gone, cs);
      UnpointedAll(p0, host, kind.Keys, released, h);
      NoneLeft(released);
    }

    // -------------------------------------------------------------------------
    // Attaching and detaching a node

    /** `host([n])` of `h`: `attachSubscopes` for the one node `n`, which
        `h` retains and which is then told it was attached. */
    method HostOne(n: NodeId, h: HostRef) returns (ghost cs: seq<Cascade>)
      requires Valid() && Placeable(kind, nextRoot, host, depth, n, h)
      modifies this`children, this`host, this`depth, this`state, this`trace, this`books
      ensures Valid()
      ensures children == old(children)[h := old(children[h]) + {n}]
      ensures host == old(host)[n := Some(h)]
      ensures h.Sub? ==> Ancestors(host, depth, h) == old(Ancestors(host, depth, h))
      ensures old(state[n]) == FromHost(old(state), Some(h)) ==>
                state == old(state) && trace == old(trace) && books == old(books)
      ensures Chained(kind, old(state), old(books), old(trace), cs, state, books, trace)
      ensures |cs| == 1 && cs[0].host == host
      ensures old(host[n]).Some? && old(host[n]) != Some(h) ==>
                IsHost(old(host[n]).value) && n in children[old(host[n]).value]
      ensures Pending(kind, host, children, state, books, trace, n, h,
                      old(host), old(children), old(state), old(books), old(trace), cs)
    {
      Retain(h, {n});
      ghost var ptr, ranks := host, depth;
      ChainedNone(kind, state, books, trace);
      ghost var c := DidAttach(n, h, state, books, trace, []);
      FirstCascade(c);
      if h.Sub? {
        AncestorsFrame(ptr, ranks, host, depth, n, Some(h), h);
      }
      cs := [c];
    }

    /** `evict([n])` of a host `f` that retains `n`: `f` drops `n` from its
        child set, and `n` forgets its host if that host is `f`; otherwise
        (`f` is a former host) nothing else changes. */
    method EvictOne(n: NodeId, f: HostRef) returns (ghost cs: seq<Cascade>)
      requires Valid() && n in kind && IsHost(f) && n in children[f]
      modifies this`children, this`host, this`depth, this`state, this`trace, this`books
      ensures Valid()
      ensures children == old(children)[f := old(children[f]) - {n}]
      ensures host == if old(host[n]) == Some(f) then old(host)[n := None] else old(host)
      ensures old(host[n]) == Some(f) ==> state[n] == Detached
      ensures old(host[n]) != Some(f) ==> state == old(state) && trace == old(trace) && books == old(books) && cs == []
      ensures old(host[n]) == Some(f) ==> |cs| == 1 && cs[0].host == host
      ensures Chained(kind, old(state), old(books), old(trace), cs, state, books, trace)
      ensures |cs| <= 1
    {
      ghost var ptr := host;
      assert children[f] * Elements([n]) == {n};
      var released;
      ghost var gone;
      released, gone, cs := DetachSubscopes(f, [n]);
      LetGoUnpointed(kind, host, state, books, trace, f, released, ptr, old(state), old(books), old(trace), gone, cs);
      UnpointedOne(ptr, host, kind.Keys, released, n, f);
      if ptr[n] == Some(f) {
        DroppingOne(ptr, host, f, gone, cs, n);
      }
    }

    /** `BehaviorComponent.attach(behavior:to:)`: a node already pointing at
        `h` is refused and nothing changes. Otherwise `h` hosts the node, the
        node is told its new host, and the former host (if any) evicts it;
        since the node no longer points at the former host, that eviction
        only drops it from the former host's child set and fires no
        callback. The node ends up with the state `h` gives it, and when it
        already had that state nothing observable happens at all. */
    method Attach(n: NodeId, h: HostRef) returns (r: Outcome<AttachmentError>, ghost cs: seq<Cascade>)
      requires Valid() && n in kind && IsHost(h)
      requires h.Sub? ==> Sub(n) !in Ancestors(host, depth, h)
      modifies this`children, this`host, this`depth, this`state, this`trace, this`books
      ensures Valid()
      ensures r == if old(host[n]) == Some(h) then Fail(AlreadyAttached) else Pass
      ensures r.Fail? ==> unchanged(this)
      ensures r.Pass? ==> host == old(host)[n := Some(h)]
      ensures r.Pass? ==> children == Rehosted(old(children), n, old(host[n]), h)
      ensures state[n] == FromHost(state, Some(h))
      ensures old(state[n]) == FromHost(old(state), Some(h)) ==>
                state == old(state) && trace == old(trace) && books == old(books)
      ensures Chained(kind, old(state), old(books), old(trace), cs, state, books, trace)
      ensures r.Fail? ==> cs == []
      ensures r.Pass? ==> |cs| == 1 && cs[0].host == host
    {
      var former := host[n];
      if former == Some(h) {
        HostedState(host, depth, state, n);
        cs := [];
        ChainedNone(kind, state, books, trace);
        return Fail(AlreadyAttached), cs;
      }
      cs := Move(n, h);
      r := Pass;
    }

    /** `attach(behavior:to:)` past its guard: `h` hosts the node, which
        then points at it, and the former host (if any) drops it from its
        child set. */
    method Move(n: NodeId, h: HostRef) returns (ghost cs: seq<Cascade>)
      requires Valid() && Placeable(kind, nextRoot, host, depth, n, h) && n in host && host[n] != Some(h)
      modifies this`children, this`host, this`depth, this`state, this`trace, this`books
      ensures Valid()
      ensures Moved(kind, host, children, state, books, trace, n, h,
                    old(host), old(children), old(state), old(books), old(trace), cs)
    {
      var former := host[n];
      cs := HostOne(n, h);
      LeaveFormer(n, h, former);
    }

    /** The rest of `attach(behavior:to:)` once `h` hosts the node: the node
        is told again that it was attached to `h`, which it already points
        at, and the former host (if any) evicts it. Neither moves a pointer
        or a state; the former host only drops the node from its child
        set. */
    method LeaveFormer(n: NodeId, h: HostRef, former: Option<HostRef>)
      requires Valid() && Lodged(kind, nextRoot, host, children, depth, n, h, former)
      modifies this`children, this`host, this`depth, this`state, this`trace, this`books
      ensures Valid()
      ensures state[n] == FromHost(state, Some(h))
      ensures host == old(host) && state == old(state) && books == old(books) && trace == old(trace)
      ensures children == if former.Some? then old(children)[former.value := old(children[former.value]) - {n}] else old(children)
    {
      Reattach(n, h);
      if former.Some? {
        Forget(n, former.value);
      }
    }

    /** `evict([n])` of a former host `f` that `n` no longer points at: `f`
        only drops `n` from its child set, and no callback fires. */
    method Forget(n: NodeId, f: HostRef)
      requires Valid() && Leaving(kind, nextRoot, host, children, n, f)
      modifies this`children, this`host, this`depth, this`state, this`trace, this`books
      ensures Valid()
      ensures children == old(children)[f := old(children[f]) - {n}]
      ensures host == old(host) && state == old(state) && books == old(books) && trace == old(trace)
    {
      ghost var evicted := EvictOne(n, f);
    }

    /** `didAttach(to:)` told again to a node that already points at `h`:
        the pointer is sent unchanged, so nothing changes and no callback
        fires. */
    method Reattach(n: NodeId, h: HostRef)
      requires Valid() && Lodged(kind, nextRoot, host, children, depth, n, h, None)
      modifies this`host, this`depth, this`state, this`trace, this`books
      ensures Valid()
      ensures state[n] == FromHost(state, Some(h))
      ensures host == old(host) && state == old(state) && books == old(books) && trace == old(trace)
    {
      HostedState(host, depth, state, n);
      PointAgain(host, n, Some(h));
      ChainedNone(kind, state, books, trace);
      ghost var again := DidAttach(n, h, state, books, trace, []);
    }

    /** `Scope.attach(to:)`: a host among whose ancestors the scope itself
        appears (the scope, or a scope below it) is refused as circular and
        nothing changes; otherwise this is `attach(behavior:to:)`. A root's
        ancestors are the root alone, so attaching to a root is never
        circular. */
    method ScopeAttach(n: NodeId, h: HostRef) returns (r: Outcome<AttachmentError>, ghost cs: seq<Cascade>)
      requires Valid() && n in kind && kind[n] == ScopeNode && IsHost(h)
      modifies this`children, this`host, this`depth, this`state, this`trace, this`books
      ensures Valid()
      ensures r == if h.Sub? && Sub(n) in old(Ancestors(host, depth, h)) then Fail(CircularAttachment)
                   else if old(host[n]) == Some(h) then Fail(AlreadyAttached)
                   else Pass
      ensures r.Fail? ==> unchanged(this)
      ensures r.Pass? ==> host == old(host)[n := Some(h)]
      ensures r.Pass? ==> children == Rehosted(old(children), n, old(host[n]), h)
      ensures r.Pass? ==> state[n] == FromHost(state, Some(h))
      ensures old(state[n]) == FromHost(old(state), Some(h)) ==>
                state == old(state) && trace == old(trace) && books == old(books)
      ensures Chained(kind, old(state), old(books), old(trace), cs, state, books, trace)
      ensures r.Fail? ==> cs == []
      ensures r.Pass? ==> |cs| == 1 && cs[0].host == host
    {
      if h.Sub? && Sub(n) in Ancestors(host, depth, h) {
        cs := [];
        ChainedNone(kind, state, books, trace);
        return Fail(CircularAttachment), cs;
      }
      r, cs := Attach(n, h);
    }

    /** `Behavior.attach(to:)`: a behaviour hosts nothing, so it can never
        lie above its new host and no circularity check is needed. */
    method BehaviorAttach(n: NodeId, h: HostRef) returns (r: Outcome<AttachmentError>, ghost cs: seq<Cascade>)
      requires Valid() && n in kind && kind[n] != ScopeNode && IsHost(h)
      modifies this`children, this`host, this`depth, this`state, this`trace, this`books
      ensures Valid()
      ensures r == if old(host[n]) == Some(h) then Fail(AlreadyAttached) else Pass
      ensures r.Fail? ==> unchanged(this)
      ensures r.Pass? ==> host == old(host)[n := Some(h)]
      ensures r.Pass? ==> children == Rehosted(old(children), n, old(host[n]), h)
      ensures state[n] == FromHost(state, Some(h))
      ensures old(state[n]) == FromHost(old(state), Some(h)) ==>
                state == old(state) && trace == old(trace) && books == old(books)
      ensures Chained(kind, old(state), old(books), old(trace), cs, state, books, trace)
      ensures r.Fail? ==> cs == []
      ensures r.Pass? ==> |cs| == 1 && cs[0].host == host
    {
      OnlyScopesAncestors(kind, host, children, depth, whileActive, nextNode, nextRoot, n, h);
      r, cs := Attach(n, h);
    }

    /** `BehaviorComponent.detach(behavior:)`: a node without a host fails
        with `deallocatedHost` and nothing changes; otherwise its host evicts
        it, and it ends detached. */
    method Detach(n: NodeId) returns (r: Outcome<AttachmentError>, ghost cs: seq<Cascade>)
      requires Valid() && n in kind
      modifies this`children, this`host, this`depth, this`state, this`trace, this`books
      ensures Valid()
      ensures r == if old(host[n]).None? then Fail(DeallocatedHost) else Pass
      ensures r.Fail? ==> unchanged(this) && cs == []
      ensures r.Pass? ==> host == old(host)[n := None]
      ensures r.Pass? ==> var f := old(host[n]).value; children == old(children)[f := old(children[f]) - {n}]
      ensures state[n] == Detached
      ensures Chained(kind, old(state), old(books), old(trace), cs, state, books, trace)
      ensures r.Pass? ==> |cs| == 1 && cs[0].host == host
    {
      var former := host[n];
      if former.None? {
        HostedState(host, depth, state, n);
        cs := [];
        ChainedNone(kind, state, books, trace);
        return Fail(DeallocatedHost), cs;
      }
      cs := EvictOne(n, former.value);
      r := Pass;
    }

    // -------------------------------------------------------------------------
    // Creating roots and nodes

    /** An empty object graph: no roots, no nodes, no callbacks yet. */
    constructor ()
      ensures Valid()
      ensures kind == map[] && children == map[] && trace == [] && nextRoot == 0
    {
      kind, host, children, state, books := map[], map[], map[], map[], map[];
      trace, whileActive, depth := [], map[], map[];
      nextNode, nextRoot := 0, 0;
    }

    /** `RootScope.init`: a new root, with an empty child set. A root is
        always active. */
    method NewRoot() returns (h: HostRef)
      requires Valid()
      modifies this`children, this`nextRoot
      ensures Valid() && h.Root? && IsHost(h)
      ensures h !in old(children) && children == old(children)[h := {}]
      ensures nextRoot == old(nextRoot) + 1
    {
      h := Root(nextRoot);
      children, nextRoot := children[h := {}], nextRoot + 1;
      AddRootKeeps(kind, host, old(children), depth, whileActive, nextNode, old(nextRoot), children, nextRoot);
    }

    /** Stores node `nextNode` of kind `k`: no host, so detached; nothing in
        its holders; a scope also gets an empty child set. */
    method AddNode(k: Kind) returns (n: NodeId)
      modifies this`kind, this`host, this`children, this`depth, this`state, this`books, this`nextNode
      ensures n == old(nextNode) && nextNode == n + 1
      ensures kind == old(kind)[n := k] && host == old(host)[n := None] && depth == old(depth)[n := 0]
      ensures children == if k == ScopeNode then old(children)[Sub(n) := {}] else old(children)
      ensures state == old(state)[n := Detached] && books == old(books)[n := Book(0, 0, 0)]
    {
      n := nextNode;
      kind, host, depth, nextNode := kind[n := k], host[n := None], depth[n := 0], n + 1;
      children := if k == ScopeNode then children[Sub(n) := {}] else children;
      state, books := state[n := Detached], books[n := Book(0, 0, 0)];
    }

    /** A new node of kind `k`, detached, with empty holders and, for a
        scope, an empty child set; nothing else changes. */
    method NewNode(k: Kind) returns (n: NodeId)
      requires Valid()
      modifies this`kind, this`host, this`children, this`depth, this`state, this`books, this`nextNode
      ensures Valid()
      ensures n !in old(kind) && kind == old(kind)[n := k] && host == old(host)[n := None]
      ensures children == if k == ScopeNode then old(children)[Sub(n) := {}] else old(children)
      ensures state == old(state)[n := Detached] && books == old(books)[n := Book(0, 0, 0)]
    {
      n := AddNode(k);
      AddNodeKeeps(old(kind), old(host), old(children), old(depth), whileActive, old(nextNode), nextRoot,
                   old(state), old(books), trace, k, kind, host, children, depth, nextNode, state, books);
    }

    /** A new `Behavior` (or, when `holder`, a `CancellableHolderBehavior`):
        a detached node. */
    method NewBehavior(holder: bool) returns (n: NodeId)
      requires Valid()
      modifies this`kind, this`host, this`children, this`depth, this`state, this`books, this`nextNode
      ensures Valid()
      ensures n !in old(kind) && kind == old(kind)[n := if holder then HolderBehavior else PlainBehavior]
      ensures host == old(host)[n := None] && children == old(children)
      ensures state == old(state)[n := Detached] && books == old(books)[n := Book(0, 0, 0)]
    {
      n := NewNode(if holder then HolderBehavior else PlainBehavior);
    }

    /** Records `w` as the while-active receiver of scope `s`. */
    method SetReceiver(s: NodeId, w: NodeId)
      requires Valid() && s in kind && kind[s] == ScopeNode && w in kind && kind[w] == HolderBehavior
      modifies this`whileActive
      ensures Valid() && whileActive == old(whileActive)[s := w]
    {
      AddReceiverKeeps(kind, host, children, depth, whileActive, nextNode, nextRoot, s, w);
      whileActive := whileActive[s := w];
    }

    /** The two new nodes of a scope: the scope and its while-active holder
        behaviour, both detached, not yet attached to each other. */
    method NewScopeNodes() returns (s: NodeId, w: NodeId)
      requires Valid()
      modifies this`kind, this`host, this`children, this`depth, this`state, this`books,
               this`nextNode, this`whileActive
      ensures Valid()
      ensures s !in old(kind) && w !in old(kind) && s != w
      ensures kind == old(kind)[s := ScopeNode][w := HolderBehavior]
      ensures host == old(host)[s := None][w := None]
      ensures children == old(children)[Sub(s) := {}]
      ensures state == old(state)[s := Detached][w := Detached]
      ensures books == old(books)[s := Book(0, 0, 0)][w := Book(0, 0, 0)]
      ensures whileActive == old(whileActive)[s := w]
    {
      s := NewNode(ScopeNode);
      w := NewBehavior(true);
      SetReceiver(s, w);
    }

    /** `Scope.init`: a new detached scope `s` whose while-active holder
        behaviour `w` (its `whileActiveReceiver`) is attached to it; `w` is
        the only node the scope hosts, and is attached but not active. */
    method NewScope() returns (s: NodeId, w: NodeId)
      requires Valid()
      modifies this`kind, this`host, this`children, this`depth, this`state, this`books,
               this`nextNode, this`trace, this`whileActive
      ensures Valid()
      ensures s !in old(kind) && w !in old(kind) && s != w
      ensures whileActive == old(whileActive)[s := w]
      ensures kind == old(kind)[s := ScopeNode][w := HolderBehavior]
      ensures host == old(host)[s := None][w := Some(Sub(s))]
      ensures children == old(children)[Sub(s) := {w}]
      ensures state == old(state)[s := Detached][w := Attached]
      ensures books == old(books)[s := Book(0, 0, 0)][w := Book(0, 0, 0)]
      ensures trace == old(trace) + [Entry(w, WillAttach)]
    {
      s, w := NewScopeNodes();
      HostReceiver(s, w);
      Overwrite(old(children), Sub(s), {}, {w});
      Overwrite(old(host)[s := None], w, None, Some(Sub(s)));
      Overwrite(old(state)[s := Detached], w, Detached, Attached);
    }

    /** The last step of `Scope.init`: the new scope `s` hosts its
        while-active holder behaviour `w`, which goes from detached to
        attached; `s` stays detached. */
    method HostReceiver(s: NodeId, w: NodeId)
      requires Valid() && s in kind && w in kind && s != w
      requires kind[s] == ScopeNode && kind[w] == HolderBehavior
      requires host[s] == None && host[w] == None && children[Sub(s)] == {}
      modifies this`children, this`host, this`depth, this`state, this`trace, this`books
      ensures Valid()
      ensures host == old(host)[w := Some(Sub(s))]
      ensures children == old(children)[Sub(s) := {w}]
      ensures state == old(state)[w := Attached] && state[s] == Detached
      ensures books == old(books)
      ensures trace == old(trace) + [Entry(w, WillAttach)]
    {
      ghost var kids := children;
      assert kids[Sub(s)] + {w} == {w};
      ghost var p0, d0, s0, b0, t0 := host, depth, state, books, trace;
      var r, cs := BehaviorAttach(w, Sub(s));
      ReceiverHosted(kind, nextRoot, p0, d0, s0, b0, t0, host, depth, cs, state, books, trace, s, w);
    }

    // -------------------------------------------------------------------------
    // Reading a node

    /** `state` of a behaviour or scope: the state it last published, which
        is the derived one. It is detached exactly when the node has no host,
        and active exactly when its chain of hosts ends at a root. */
    method State(n: NodeId) returns (st: ActivityState)
      requires Valid() && n in kind
      ensures st == state[n]
      ensures st == Detached <==> host[n].None?
      ensures st == Active <==> Last(Ancestors(host, depth, Sub(n))).Root?
    {
      st := state[n];
      ActiveIffRooted(host, depth, n);
    }

    /** `CancellableHolderBehavior.receive`: an active holder behaviour stores
        the cancellable in its holder; otherwise it cancels it at once. The
        items holder moves accordingly; nothing else changes. */
    method Receive(w: NodeId)
      requires Valid() && w in kind && kind[w] == HolderBehavior
      modifies this`books
      ensures Valid()
      ensures books == old(books)[w := Received(old(books[w]), state[w] == Active)]
      ensures var b := old(books[w]);
              var t := Item(w, b.received);
              ItemsOf(books[w], w) == if state[w] == Active then Apply(ItemsOf(b, w), Receiving(t))
                                     else Holding(ItemsOf(b, w).held, ItemsOf(b, w).cancelled + multiset{t})
      ensures WorkOf(books[w], w, state[w]) == WorkOf(old(books[w]), w, state[w])
    {
      var b := books[w];
      if state[w] == Active {
        StoreItem(w, b.start, b.received);
      } else {
        DropItem(w, b.received);
      }
      books := books[w := Received(b, state[w] == Active)];
      ReceiveKeeps(kind, host, children, depth, whileActive, nextNode, nextRoot, state, old(books), trace, w, books);
    }
  }
}
