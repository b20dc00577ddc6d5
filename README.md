# ScopeKit attachment tree and lifecycle, in Dafny

ScopeKit organises an app into a tree. Behaviours (`Behavior`) and scopes
(`Scope`) are its nodes. A scope can host other nodes, and a `RootScope`,
which is permanently active, sits at the top. Each node keeps a weak pointer
to its host in its `BehaviorComponent`. Each host keeps the set of nodes it
retains in its `HostComponent`. Every node publishes one of three states:

- `detached`: it has no host;
- `active`: its host is active;
- `attached`: any other case.

A change of state runs the node's lifecycle switch: `willAttach`, `activate`,
`deactivate` and `didDetach`. `activate` fills the node's behaviour holder of
cancellables and `deactivate` resets it. A scope also owns a while-active
holder behaviour. While that behaviour is active it keeps what it receives;
otherwise it cancels what it receives at once.

The model has seven modules, one per file:

- `Results` (`results.dfy`) holds the optional value and the pass/fail
  outcome that the operations return.
- `Lifecycle` (`lifecycle.dfy`) covers the lifecycle of one node:
  - the state derivation;
  - the lifecycle switch, checked against a lifecycle automaton;
  - duplicate removal before the switch;
  - a global callback log.
- `Resources` (`resources.dfy`) covers `CancellableHolder` and `CancelBag`.
  Both are classes proved against a pure holder specification. "Cancelled
  exactly once" is stated over a `cancelled` multiset.
- `Accounts` (`accounts.dfy`) gives the holders of one node in closed form,
  driven by counters. It proves that activation windows and received items
  are each cancelled exactly once.
- `Topology` (`topology.dfy`) covers:
  - host pointers with a ranking that witnesses acyclicity;
  - `ancestors`;
  - the state derived recursively over the chain of hosts;
  - the local rule by which each node computes its state from its host's.
- `ScopeRuntime` (`runtime.dfy`) holds the whole object graph as one mutable
  store, the class `Runtime`. Its methods are the library's operations:
  - hosting, evicting, attaching and detaching;
  - the parent-before-child state cascade;
  - creating roots, behaviours and scopes;
  - reading a node's state;
  - receiving a cancellable.

  Each of them keeps one invariant, `Valid`:
  - the graph is well formed and acyclic;
  - every cached state equals the derived state;
  - every node's callback log is an allowed run of the lifecycle automaton
    that ends in its cached state;
  - the holders account for every cancellable.
- `Scenarios` (`scenarios.dfy`) builds small graphs through the public
  operations, as the library's behaviour tests do.

The library's Combine chains all run synchronously. Each one is modelled as
the direct call it amounts to:

- a `Future` becomes the method's return value;
- sending a host pointer becomes a re-pointing followed by a recomputation of
  every node's state, parents before children;
- each change of state runs the lifecycle switch of its node.

An operation that sends several host pointers runs one cascade per pointer.
Each cascade records the pointers it ran under and the states it settled
on (`Fits`: those states follow from those pointers by the local rule). A
run of cascades (`Chained`) takes the states, holders and log from before
the operation to after it. The bulk operations state which pointers each
cascade of the run saw. For `attachSubscopes` the j-th cascade sees the
first j+1 scopes pointed at the host. For the detach operations it sees the
first j+1 released nodes cut from it.

The library contains two versions of `didAttach(to:)`. `ScopedBehaviorImpl`
provides a default that sends the host pointer. The concrete `Behavior` and
`Scope` classes replace it with an empty body. The main model follows the
documented behaviour, so a hosted node learns its host. The version as
written is modelled beside it; see "## Findings".

In the same way, only `Scope.init` starts a node's lifecycle switch in the
source, so behaviours never run theirs. The main model runs every node's
switch, as the library's documentation and tests expect. The version as
written is modelled beside it, also under "## Findings".

## Model

| member | source | states |
|---|---|---|
| Lifecycle.Derive | Sources/ScopeKit/Internal/BehaviorComponent.swift:52-61 | the published state is detached exactly when there is no host, active exactly when there is a host and it is active, attached otherwise |
| Lifecycle.Table | Sources/ScopeKit/Internal/ScopedBehaviorImpl.swift:76-95 | the switch has a row exactly for the initial (nil, detached) pair and for every real change of state; every other pair reaches the assertion-failure default |
| Lifecycle.TableRows | Sources/ScopeKit/Internal/ScopedBehaviorImpl.swift:76-92 | the exact callbacks of each row, with `activate` as willActivate, store, didActivate and `deactivate` as willDeactivate, reset, didDeactivate |
| Lifecycle.HooksDrive | Sources/ScopeKit/Internal/ScopedBehaviorImpl.swift:76-92 | every row walks the lifecycle automaton from the old state to the new one, even when the state jumps between detached and active |
| Lifecycle.HooksExtend | Sources/ScopeKit/Internal/ScopedBehaviorImpl.swift:65-100 | callbacks that settle the automaton in one state, followed by one row, settle it in the row's new state |
| Lifecycle.SuffixWalks | Sources/ScopeKit/Internal/ScopedBehaviorImpl.swift:65-100 | between two settled logs, the added callbacks walk the automaton from the first state to the second |
| Lifecycle.Bracketed | Sources/ScopeKit/Internal/ScopedBehaviorImpl.swift:30-46 | along any allowed run, activations and deactivations balance up to the window still open, and so do willAttach and didDetach |
| Lifecycle.Dedup | Sources/ScopeKit/Internal/ScopedBehaviorImpl.swift:68 | `removeDuplicates` leaves no two equal neighbours and keeps the first and last values |
| Lifecycle.DedupKeepsChanges | Sources/ScopeKit/Internal/ScopedBehaviorImpl.swift:68 | `removeDuplicates` keeps exactly the values that start a run of equal values, in their order: the kept values sit at increasing positions, and a position is kept exactly when it is the first or differs from the one before |
| Lifecycle.SinkOfDistinct | Sources/ScopeKit/Internal/ScopedBehaviorImpl.swift:69-95 | a stream of real changes never reaches the default branch, and its callbacks settle the automaton in the last state |
| Lifecycle.NoUnexpectedTransition | Sources/ScopeKit/Internal/ScopedBehaviorImpl.swift:67-95 | after duplicate removal, a published stream starting at detached never reaches the assertion failure, and its callbacks settle in its last state |
| Lifecycle.TagRows | Sources/ScopeKit/Internal/ScopedBehaviorImpl.swift:76-92 | the rows of the switch as log entries: an activation (after willAttach when coming from detached), a deactivation (before didDetach when going to detached), or a single attach or detach callback |
| Lifecycle.ProjectTag | Sources/ScopeKit/Internal/ScopedBehaviorImpl.swift:72-92 | the callbacks of one node's switch are seen by that node only |
| Lifecycle.LogStep | Sources/ScopeKit/Internal/ScopedBehaviorImpl.swift:65-100 | moving one node to a new state and logging its row keeps every node's log an allowed run that ends in its state |
| Resources.ExactlyOnce | Sources/ScopeKit/API/CancellableHolder.swift:8-17 | starting empty, each received token is cancelled exactly once if it is no longer held and never while held; nothing unreceived is held or cancelled |
| Resources.ResetIdempotent | Sources/ScopeKit/API/CancellableHolder.swift:12-17 | a second reset cancels nothing more |
| Resources.ReceiveAfterReset | Sources/ScopeKit/API/CancellableHolder.swift:8-17 | after a reset, a new token is held and not cancelled; the holder has no closed state |
| Resources.CancellableHolder.constructor | Sources/ScopeKit/API/CancellableHolder.swift:6 | a new holder holds nothing and has cancelled nothing |
| Resources.CancellableHolder.Receive | Sources/ScopeKit/API/CancellableHolder.swift:8-10 | the token is added to the stored set |
| Resources.CancellableHolder.Reset | Sources/ScopeKit/API/CancellableHolder.swift:12-17 | every stored token is cancelled once, then the set is empty |
| Resources.CancelBag.constructor | Sources/ScopeKit/CancelBag.swift:7-9 | the bag holds exactly the given items, duplicates collapsed, and has cancelled nothing |
| Resources.CancelBag.Cancel | Sources/ScopeKit/CancelBag.swift:40-44 | every held token is cancelled once, then the bag is empty |
| Resources.CancelBag.Deinit | Sources/ScopeKit/CancelBag.swift:19-21 | deinitialisation cancels what is left |
| Resources.CancelBag.Store | Sources/ScopeKit/CancelBag.swift:49-51 | storing a cancellable adds it to the bag's set |
| Resources.CancelBag.StoreIn | Sources/ScopeKit/CancelBag.swift:56-59 | into another bag: the target holds the union, this bag is empty, and neither cancels anything; into itself: the bag ends empty and everything it held is cancelled once, since the dropped `AnyCancellable`s cancel on release |
| Accounts.OpenWindow | Sources/ScopeKit/Internal/ScopedBehaviorImpl.swift:30-38 | `activate` stores the new window's work in the empty behaviour holder |
| Accounts.CloseWindow | Sources/ScopeKit/Internal/ScopedBehaviorImpl.swift:40-46 | `deactivate` cancels the open window's work and empties the holder |
| Accounts.StoreItem | Sources/ScopeKit/API/CancellableHolderBehavior.swift:19 | while active, a received item is stored in the window |
| Accounts.DropItem | Sources/ScopeKit/API/CancellableHolderBehavior.swift:15-18 | while not active, a received item is cancelled at once and never stored |
| Accounts.CloseItems | Sources/ScopeKit/API/CancellableHolderBehavior.swift:10-12 | `didDeactivate` cancels every item of the window |
| Accounts.WorkExactlyOnce | Sources/ScopeKit/Internal/ScopedBehaviorImpl.swift:35-43 | each window's work is cancelled exactly once, when its window closes; only the open window's work is held |
| Accounts.ItemsExactlyOnce | Sources/ScopeKit/API/CancellableHolderBehavior.swift:10-20 | each received item is cancelled exactly once, at receipt or at the deactivation that ends its window, unless it is held in the open window |
| Topology.Ancestors | Sources/ScopeKit/API/Scope.swift:81-84 | `ancestors` starts with the host itself |
| Topology.Derived | Sources/ScopeKit/Internal/BehaviorComponent.swift:39-61 | the state derived over the chain of hosts is detached exactly when the node has no host |
| Topology.ActiveIffRooted | Sources/ScopeKit/Internal/BehaviorComponent.swift:42-61 | a node is active exactly when the last of its ancestors is a root |
| Topology.LocalGivesDerived | Sources/ScopeKit/Internal/BehaviorComponent.swift:42-47 | when every node's cached state is the local rule over its host's, each cached state is the derived one |
| Topology.CoherentIffLocal | Sources/ScopeKit/Internal/BehaviorComponent.swift:36-67 | the cached states equal the derived ones exactly when each is its node's local rule over its host's cached state |
| Topology.HostedState | Sources/ScopeKit/Internal/BehaviorComponent.swift:52-61 | a node's cached state is the one its host pointer gives |
| Topology.DetachedIffUnhosted | Sources/ScopeKit/Internal/BehaviorComponent.swift:54-55 | a node is detached exactly when it has no host |
| Topology.QuietRepoint | Sources/ScopeKit/Internal/ScopedBehaviorImpl.swift:68 | re-pointing a node to a host that gives it the state it already has changes no cached state |
| Topology.AncestorsFrame | Sources/ScopeKit/API/Scope.swift:81-84 | re-pointing a node that does not lie above a host leaves that host's `ancestors` unchanged |
| Topology.RepointKeepsRanked | Sources/ScopeKit/API/Scope.swift:21-23 | re-pointing a node at a host that does not have it among its ancestors keeps the pointers acyclic |
| Topology.CoherentSteady | Sources/ScopeKit/Internal/BehaviorComponent.swift:42-61 | the derived states are settled: each node's state is the local rule over its host's |
| Topology.SteadyUnique | Sources/ScopeKit/Internal/BehaviorComponent.swift:36-67 | over acyclic pointers only one assignment of states is settled, so a cascade's outcome is determined by its pointers |
| Topology.LeafRepoint | Sources/ScopeKit/Internal/BehaviorComponent.swift:42-61 | re-pointing a node that hosts nothing changes its own state to the one its new host gives, and no other state |
| ScopeRuntime.Repoint | Sources/ScopeKit/API/Scope.swift:20-24 | re-pointing at a host that retains the node, without closing a cycle, keeps the graph well formed |
| ScopeRuntime.SwitchedHolders | Sources/ScopeKit/Internal/ScopedBehaviorImpl.swift:30-46 | entering active stores the new window's work; leaving active resets the behaviour holder and, for a holder behaviour, its items |
| ScopeRuntime.PropagationStep | Sources/ScopeKit/Internal/BehaviorComponent.swift:42-47 | recomputing a node whose host has settled, and running its switch, keeps the cascade invariant |
| ScopeRuntime.PropagationDone | Sources/ScopeKit/Internal/BehaviorComponent.swift:36-67 | when the cascade ends, every cached state is the derived one, every node was visited once, parents first, and the log grew by each node's row |
| ScopeRuntime.CascadeKeeps | Sources/ScopeKit/Internal/ScopedBehaviorImpl.swift:65-100 | a cascade keeps the holders accounted and every node's log an allowed run |
| ScopeRuntime.Recascaded | Sources/ScopeKit/Internal/BehaviorComponent.swift:36-67 | a cascade over a well-formed graph re-establishes the store invariant |
| ScopeRuntime.RetainKeeps | Sources/ScopeKit/Internal/HostComponent.swift:52 | a host retaining more existing nodes keeps the graph well formed |
| ScopeRuntime.ReleaseKeeps | Sources/ScopeKit/Internal/HostComponent.swift:38 | a host may drop nodes that no longer point at it |
| ScopeRuntime.ReceiveKeeps | Sources/ScopeKit/API/CancellableHolderBehavior.swift:14-20 | receiving a cancellable keeps the invariant |
| ScopeRuntime.AddRootKeeps | Sources/ScopeKit/API/RootScope.swift:8-10 | a new root with an empty child set keeps the graph well formed |
| ScopeRuntime.AddNodeKeeps | Sources/ScopeKit/Internal/BehaviorComponent.swift:13-16 | a new node, detached with no host and empty holders, keeps the invariant |
| ScopeRuntime.AddReceiverKeeps | Sources/ScopeKit/API/Scope.swift:8 | a scope's while-active receiver is a holder behaviour |
| ScopeRuntime.ChainedConcat | Sources/ScopeKit/Internal/BehaviorComponent.swift:36-67 | two runs of cascades, the second starting where the first left the states, books and log, make one run |
| ScopeRuntime.ChainedGrows | Sources/ScopeKit/Internal/ScopedBehaviorImpl.swift:72-99 | a run of cascades only appends to the log |
| ScopeRuntime.ChainedOne | Sources/ScopeKit/Internal/BehaviorComponent.swift:36-67 | one cascade as the recomputation reports it, with its visit order and rows, is a run of one |
| ScopeRuntime.ChainedStep | Sources/ScopeKit/Internal/BehaviorComponent.swift:36-67 | a run of cascades followed by one more cascade from where it left the store is a run |
| ScopeRuntime.ChainedSingle | Sources/ScopeKit/Internal/BehaviorComponent.swift:36-67 | a run of one cascade leaves that cascade's states, moves every node's books by its own switch, and appends that cascade's rows to the log |
| ScopeRuntime.EntriesSingle | Sources/ScopeKit/Internal/ScopedBehaviorImpl.swift:72-92 | when one node alone changes state, the log gains exactly that node's row of the switch |
| ScopeRuntime.SwitchAllQuiet | Sources/ScopeKit/Internal/ScopedBehaviorImpl.swift:30-46 | a move that neither enters nor leaves the active state touches no holder |
| ScopeRuntime.ReceiverHosted | Sources/ScopeKit/API/Scope.swift:11 | attaching a detached behaviour that hosts nothing to a detached scope moves only that behaviour, from detached to attached; no holder changes and the log gains its willAttach |
| ScopeRuntime.RanEach | Sources/ScopeKit/Internal/HostComponent.swift:53-55 | the j-th cascade of `attachSubscopes` ran under the old pointers with exactly the first j+1 scopes re-pointed at the host, so a node not among the scopes keeps its pointer in every cascade |
| ScopeRuntime.AimedAt | Sources/ScopeKit/Internal/HostComponent.swift:53-55 | after the scopes are pointed at the host one by one, exactly they point at it and every other node keeps its pointer |
| ScopeRuntime.CutAt | Sources/ScopeKit/Internal/HostComponent.swift:35-37 | after nodes are unhosted one by one, exactly they point nowhere and every other node keeps its pointer |
| ScopeRuntime.DroppedEach | Sources/ScopeKit/Internal/HostComponent.swift:35-37 | the j-th cascade of the detach ran under the old pointers with exactly the first j+1 unhosted nodes cut |
| ScopeRuntime.ReleasingStep | Sources/ScopeKit/Internal/ScopedBehaviorImpl.swift:48-59 | telling one more released node that the host detaches it keeps the detach invariant: a node pointing at that host is cut and its cascade appended, any other node changes nothing |
| ScopeRuntime.ReleasingHit | Sources/ScopeKit/Internal/ScopedBehaviorImpl.swift:52-57 | a released node still pointing at the host is cut, listed once, detached, and its cascade runs under the pointers with it cut |
| ScopeRuntime.ReleasingMiss | Sources/ScopeKit/Internal/ScopedBehaviorImpl.swift:52-53 | a released node pointing elsewhere is filtered out: no pointer, state, book or log entry changes |
| ScopeRuntime.DroppingDetached | Sources/ScopeKit/Internal/ScopedBehaviorImpl.swift:48-59 | every released node that pointed at the host is detached once its pointer is cut |
| ScopeRuntime.LetGoUnpointed | Sources/ScopeKit/Internal/HostComponent.swift:34-38 | after the detach, exactly the released nodes that pointed at the host point nowhere, every other node points where it did, and no released node points at the host |
| ScopeRuntime.UnpointedAll | Sources/ScopeKit/Internal/HostComponent.swift:14-27 | when every node that pointed at the host was released, the nodes now pointing nowhere in its place are exactly those that pointed at it |
| ScopeRuntime.DroppingOne | Sources/ScopeKit/Internal/ScopeHostingImpl.swift:48-50 | releasing one node that pointed at the host runs exactly one cascade, under the pointers with that node unhosted |
| ScopeRuntime.ReceiverCancelsAsWritten | Sources/ScopeKit/API/CancellableHolderBehavior.swift:15-18 | as written the receiver's switch never runs, so even under an active scope a received item is cancelled at once and not held, where with its switch running it is held |
| ScopeRuntime.OnlyScopesAncestors | Sources/ScopeKit/API/Behavior.swift:8-11 | a behaviour never lies among the ancestors of a host, so its attach needs no circularity check |
| ScopeRuntime.Runtime.Activate | Sources/ScopeKit/Internal/ScopedBehaviorImpl.swift:30-38 | willActivate, then the holder stores the window's work, then didActivate |
| ScopeRuntime.Runtime.Deactivate | Sources/ScopeKit/Internal/ScopedBehaviorImpl.swift:40-46 | willDeactivate, then the holder is reset, then didDeactivate, which for a holder behaviour also resets its items |
| ScopeRuntime.Runtime.Transition | Sources/ScopeKit/Internal/ScopedBehaviorImpl.swift:76-92 | the cached state becomes the new one, the log grows by exactly the switch row, and the holders move by `Switched` |
| ScopeRuntime.Runtime.Visit | Sources/ScopeKit/Internal/BehaviorComponent.swift:42-61 | one cascade step picks a node whose host has settled and keeps the cascade invariant |
| ScopeRuntime.Runtime.Propagate | Sources/ScopeKit/Internal/BehaviorComponent.swift:36-67 | afterwards every cached state is the derived one; each node ran its row once, parents first; already coherent states change nothing |
| ScopeRuntime.Runtime.Recompute | Sources/ScopeKit/Internal/BehaviorComponent.swift:36-67 | a cascade after a pointer change restores the store invariant |
| ScopeRuntime.Runtime.SetHost | Sources/ScopeKit/Internal/BehaviorComponent.swift:140 | the host pointer becomes the new one and the states below recompute; a move to a host giving the same state fires nothing |
| ScopeRuntime.Runtime.WillDetach | Sources/ScopeKit/Internal/ScopedBehaviorImpl.swift:48-59 | called by its current host, the node loses its pointer and is detached, and exactly one cascade under the new pointers extends the caller's run of cascades: the log grows by that cascade's rows and every node's books move by its own switch; called by any other host, nothing changes and no cascade runs |
| ScopeRuntime.Runtime.Unhost | Sources/ScopeKit/Internal/ScopedBehaviorImpl.swift:56 | sending the node a nil host pointer detaches it, by exactly one cascade under the new pointers that extends the caller's run |
| ScopeRuntime.Runtime.DidAttach | Sources/ScopeKit/Internal/ScopedBehaviorImpl.swift:61-63 | the node points at the host that retains it; exactly one cascade under the new pointers extends the caller's run, appending its rows to the log and moving every node's books by its switch; when the node already had the state the host gives, states, books and log are unchanged |
| ScopeRuntime.Runtime.Retain | Sources/ScopeKit/Internal/HostComponent.swift:52 | the child set becomes its union with the given nodes |
| ScopeRuntime.Runtime.Release | Sources/ScopeKit/Internal/HostComponent.swift:38 | the child set loses the given nodes, none of which still points at the host; pointers, states, holders and log are untouched, so the detach run before it (`LetGo`) still holds |
| ScopeRuntime.Runtime.AttachSubscopes | Sources/ScopeKit/Internal/HostComponent.swift:45-60 | the child set becomes old union scopes, then each scope points at the host and takes the state the host gives (active under an active host); other pointers are unchanged; one cascade per scope, the j-th under the old pointers with exactly the first j+1 scopes re-pointed at the host, leads to the new states, books and log; nothing fires when no state changes; `host` of a scope and `attachSubscopes` of a root (Sources/ScopeKit/API/RootScope.swift:16-18) are this operation |
| ScopeRuntime.Runtime.AttachSubscopesAsWritten | Sources/ScopeKit/API/Behavior.swift:48 | as the concrete classes run it: the child set grows and nothing else changes |
| ScopeRuntime.Runtime.DidAttachEach | Sources/ScopeKit/Internal/HostComponent.swift:53-55 | each retained scope, in order, points at the host; other pointers and the host's ancestors are unchanged; one cascade per scope takes the states, books and log from the old ones to the new, the j-th under the old pointers with exactly the first j+1 scopes re-pointed at the host (`Ran`); none of them changes when every scope already had the host's state |
| ScopeRuntime.Runtime.AttachNext | Sources/ScopeKit/Internal/HostComponent.swift:54 | didAttach on the next scope keeps the attach invariant: it points at the host and its cascade, under the old pointers with the scopes so far re-pointed, extends the run |
| ScopeRuntime.Runtime.WillDetachEach | Sources/ScopeKit/Internal/HostComponent.swift:35-37 | exactly the released nodes pointing at the host lose their pointers, each once, and are detached; other pointers are untouched; one cascade per such node takes the states, books and log from the old ones to the new, the j-th under the old pointers with exactly the first j+1 of those nodes unhosted (`LetGo`); when none pointed at the host, nothing changes; afterwards no released node points at the host |
| ScopeRuntime.Runtime.DetachNext | Sources/ScopeKit/Internal/HostComponent.swift:36 | willDetach on the next released node keeps the detach invariant (`ReleasingStep`) |
| ScopeRuntime.Runtime.DetachEach | Sources/ScopeKit/Internal/HostComponent.swift:34-38 | willDetach on each released node, then the child set loses them all; exactly the released nodes that pointed at the host lose their pointers and are detached, one cascade each, the j-th under the old pointers with exactly the first j+1 of them unhosted, leads to the new states, books and log, and nothing changes when none pointed at the host (`LetGo`) |
| ScopeRuntime.Runtime.DetachSubscopes | Sources/ScopeKit/Internal/HostComponent.swift:29-43 | exactly the intersection of the child set and the argument is released and returned; released nodes still pointing at the host lose their pointers and are detached; the rest is untouched; one cascade per such node, the j-th under the old pointers with exactly the first j+1 of them unhosted, leads to the new states, books and log, and none runs when no released node pointed at the host; `evict` of a scope and `detachSubscopes` of a root (Sources/ScopeKit/API/RootScope.swift:20-22) are this operation |
| ScopeRuntime.Runtime.DetachAllSubscopes | Sources/ScopeKit/Internal/HostComponent.swift:14-27 | every child is released and returned, the child set is empty, every node pointing at the host loses its pointer and is detached, and every other pointer is kept; one cascade per such node, the j-th under the old pointers with exactly the first j+1 of them unhosted, leads to the new states, books and log, and none runs when no child pointed at the host; `evictAll` of a scope and `detachAllSubscopes` of a root (Sources/ScopeKit/API/RootScope.swift:24-26) are this operation |
| ScopeRuntime.Runtime.HostOne | Sources/ScopeKit/Internal/ScopeHostingImpl.swift:44-46 | `host([n])`: the host retains `n`, `n` points at it, the host's ancestors are unchanged, and exactly one cascade under the new pointers leads to the new states, books and log, which stay as they were when `n` already had the host's state (`Pending`) |
| ScopeRuntime.Runtime.EvictOne | Sources/ScopeKit/Internal/ScopeHostingImpl.swift:48-50 | `evict([n])`: the host drops `n`, and `n` loses its pointer and is detached only when it pointed at that host, by exactly one cascade under the final pointers; when `n` pointed elsewhere nothing else changes and no cascade runs |
| ScopeRuntime.Runtime.Attach | Sources/ScopeKit/Internal/BehaviorComponent.swift:111-170 | the current host is refused with alreadyAttached, nothing changes and no cascade runs; otherwise the new host retains the node, the node points at it, and the former host only drops it from its child set; the node takes the host's state through exactly one cascade under the new pointers, which appends its rows to the log and moves every node's books by its switch; when the node already had that state, states, books and log are unchanged |
| ScopeRuntime.Runtime.Move | Sources/ScopeKit/Internal/BehaviorComponent.swift:129-155 | past the guard: the node points at the new host, which retains it, the former host drops it, the node has the host's state, and one cascade leads to the new states, books and log, changing nothing when the node already had that state (`Moved`) |
| ScopeRuntime.Runtime.LeaveFormer | Sources/ScopeKit/Internal/BehaviorComponent.swift:138-155 | telling the node its host again and letting the former host evict it moves no pointer, state, book or log entry; the former host only drops the node from its child set |
| ScopeRuntime.Runtime.Reattach | Sources/ScopeKit/Internal/BehaviorComponent.swift:138-141 | telling a node again the host it already points at changes no pointer, state, book or log entry |
| ScopeRuntime.Runtime.Forget | Sources/ScopeKit/Internal/BehaviorComponent.swift:147-148 | the former host evicting a node that no longer points at it only drops the node from its child set; no pointer, state, holder or log entry changes |
| ScopeRuntime.Runtime.ScopeAttach | Sources/ScopeKit/API/Scope.swift:19-25 | a host whose ancestors contain the scope is refused with circularAttachment, and the current host with alreadyAttached; a refusal changes nothing and runs no cascade; otherwise this is the component attach, with the same pointers, child sets, states, books and log |
| ScopeRuntime.Runtime.BehaviorAttach | Sources/ScopeKit/API/Behavior.swift:8-11 | a behaviour's attach is the component attach, with the same refusal and the same pointers, child sets, states, books and log |
| ScopeRuntime.Runtime.Detach | Sources/ScopeKit/Internal/BehaviorComponent.swift:172-201 | with no host it fails with deallocatedHost, nothing changes and no cascade runs; otherwise the host evicts the node, which ends up detached with no host and out of the host's child set, by exactly one cascade under the final pointers that leads to the new states, books and log |
| ScopeRuntime.Runtime.NewRoot | Sources/ScopeKit/API/RootScope.swift:8-10 | a new root with an empty child set |
| ScopeRuntime.Runtime.NewNode | Sources/ScopeKit/Internal/BehaviorComponent.swift:15-16 | a new node is detached, with no host and empty holders; nothing else changes |
| ScopeRuntime.Runtime.NewBehavior | Sources/ScopeKit/API/Behavior.swift:6 | a new behaviour or holder behaviour, detached |
| ScopeRuntime.Runtime.SetReceiver | Sources/ScopeKit/API/Scope.swift:15-17 | the scope's while-active receiver is recorded |
| ScopeRuntime.Runtime.NewScope | Sources/ScopeKit/API/Scope.swift:10-13 | a new scope `s` is detached and hosts exactly its while-active holder behaviour `w`, which points at it; the states gain `s` detached and `w` attached and change nowhere else, both start with empty holders, and the log gains exactly `w`'s willAttach |
| ScopeRuntime.Runtime.HostReceiver | Sources/ScopeKit/API/Scope.swift:11 | the new scope hosts its receiver, which points at it; only the receiver changes state, from detached to attached, while the scope stays detached; no holder changes, and the log gains exactly the receiver's willAttach |
| ScopeRuntime.Runtime.NewScopeNodes | Sources/ScopeKit/API/Scope.swift:6-8 | the two new nodes of a scope, the scope and its holder behaviour, both detached with no host and empty holders; the scope has an empty child set and records the behaviour as its while-active receiver |
| ScopeRuntime.Runtime.State | Sources/ScopeKit/API/Scope.swift:46-48 | `state` is the cached state: detached exactly when there is no host, active exactly when the chain of hosts ends at a root |
| ScopeRuntime.Runtime.Receive | Sources/ScopeKit/API/CancellableHolderBehavior.swift:14-20 | while active the item is stored; otherwise it is cancelled at once; the behaviour holder is untouched |
| Scenarios.HostInRootAsWritten | Sources/ScopeKit/API/Scope.swift:62 | as written, a behaviour hosted by a root is retained but stays detached |
| Scenarios.HostInRoot | Sources/ScopeKit/Internal/ScopeHostingImpl.swift:16 | as documented, a behaviour hosted by a root is retained and active |
| Scenarios.AttachDetachReattach | Tests/ScopeKitTests/BehaviorTestRunner.swift:88-119 | attached to a root a behaviour is active, detached it is detached, reattached it is active again |
| Scenarios.RefusedAttachAndDetach | Sources/ScopeKit/Internal/BehaviorComponent.swift:117-120 | attaching to the current host gives alreadyAttached, and detaching a behaviour with no host gives deallocatedHost |
| Scenarios.Reparent | Tests/ScopeKitTests/BehaviorTestRunner.swift:121-130 | moving from one root to another fires no callback; the behaviour stays active and only the second root retains it |
| Scenarios.ScopeLifecycle | Sources/ScopeKit/API/Scope.swift:10-13 | a new scope is detached with its receiver attached, and is active once attached to a root |
| Scenarios.ReceiverAsWritten | Sources/ScopeKit/API/Scope.swift:10-13 | as written, the while-active receiver of a scope attached to a root publishes detached and cancels what it receives |
| Scenarios.ReceiverUnderActiveScope | Sources/ScopeKit/API/CancellableHolderBehavior.swift:14-20 | with every node's switch running, that receiver is active and holds what it receives |
| Scenarios.CircularRefused | Sources/ScopeKit/API/Scope.swift:21-23 | attaching a scope to a scope it hosts gives circularAttachment |

## Left out

- Weak references and deallocation are not modelled. This covers `weakHandle`
  (Sources/ScopeKit/Internal/ScopeHostingImpl.swift:33-38 and
  Sources/ScopeKit/API/RootScope.swift:39-44) and retention by ARC. Dafny has
  no reclamation to model them with. A host never disappears, so
  `deallocatedHost` arises only when a node has no host pointer.
- `BehaviorComponent.start(listener:)` is not modelled. Neither is the
  listener-based switch of `BehaviorComponent.initializeBehaviorLifecycle`,
  whose weak listener can silently skip a row. No code in the library calls
  them. As written, only `Scope.init` starts a switch, so a plain behaviour
  and a scope's while-active receiver never run one and stay detached; see
  "## Findings". The main model follows the corrected lifecycle, in which
  every node runs the `ScopedBehaviorImpl` switch from its creation.
- Scenarios.HostInRoot follows the corrected lifecycle of "## Findings": as
  written, the hosted behaviour never starts its switch, so it publishes
  detached even once it points at the root.
- Scenarios.AttachDetachReattach follows the corrected lifecycle of
  "## Findings": as written, the behaviour never starts its switch, so all
  three states it reads are detached.
- Scenarios.Reparent follows the corrected lifecycle of "## Findings": as
  written, the behaviour publishes detached throughout, not active; the
  log, the child sets and the absence of callbacks are the same.
- Scenarios.ScopeLifecycle follows the corrected lifecycle of "## Findings":
  as written, the scope's while-active receiver never starts its switch, so
  it publishes detached, not attached; the scope's own states are as stated.
- ScopeRuntime.Runtime.SetHost does not model a transient state. Its
  Combine chain (Sources/ScopeKit/Internal/BehaviorComponent.swift:37-61)
  combines two publishers of one shared host publisher with
  `CombineLatest`. On a new host pointer, the "directly detached" flag
  emits before the new host's state arrives. That flag is paired with the
  last state of the former host, so a node re-attached after a detach can
  publish that stale state for a moment, and its switch can run rows for
  it. The model publishes only the settled state.
- ScopeRuntime.Runtime.Propagate runs one cascade to the settled states.
  It leaves out the same transient emission, and the extra switch rows it
  can cause lower in the tree.
- ScopeRuntime.Runtime.Attach inherits that gap: re-attaching a detached
  node whose former host's last state differs from the new host's can, in
  the source, run the switch through the stale state first. The model's
  log shows only the settled rows.
- Combine scheduling is not modelled. Every chain is taken to run
  synchronously and every `Future` to resolve before it returns, as it does on
  the main thread. The main-thread assertion and the injection singleton are
  left out.
- `Future` and promise wrappers are left out. Each operation returns its
  result directly: an `Outcome` for attach and detach, the released set for
  the detach operations.
- Type erasure (`AnyScopedBehavior` and `AnyScopeHosting`) is left out. Only
  its identity semantics are kept: nodes and hosts are ids.
- Cancellables themselves are abstract:
  - one `Work` token stands for everything one `willActivate` produces;
  - one `Item` token stands for each cancellable a while-active receiver gets;
  - the same cancellable received twice is not modelled.
- The store keeps each node's holders as counters (`Book`). `Accounts`
  proves that those counters determine exactly what `CancellableHolder` holds
  and has cancelled. The holder objects inside the store are not separate
  objects.
- `CancelBag`'s variadic and result-builder initialisers (and the
  `CancelBagBuilder` they use) are not modelled. They only assemble the
  collection the main initialiser takes.
- `ScopeRuntime.Runtime.Propagate` states the order of the cascade only as
  "parents before children, each node once". Combine delivers updates depth
  first in subscription order, which is one such order.
- `ScopeRuntime.Runtime.AttachSubscopes` requires that no hosted scope lies
  above the host. The source does not check this. Hosting an ancestor would
  make `ancestors` and the state publishers recurse without end, which the
  acyclic model cannot represent. `ScopeRuntime.Runtime.Attach`,
  `ScopeRuntime.Runtime.HostOne`, `ScopeRuntime.Runtime.DidAttach` and
  `ScopeRuntime.Runtime.SetHost` carry the same requirement. Their public
  callers meet it: `Scope.attach` checks it, and a behaviour never hosts.
- `ScopeRuntime.Runtime.EvictOne` requires that the host retains the node.
  Evicting a node the host does not retain changes nothing in the source;
  `ScopeRuntime.Runtime.DetachSubscopes` covers that case.
- The superseded earlier files are not part of this model:
  - Sources/ScopeKit/Scope.swift
  - Sources/ScopeKit/BehaviorComponent.swift
  - Sources/ScopeKit/ScopeOwning.swift

## Findings

| source | as written | input that shows it | evidently intended | confidence | as-written member | corrected member |
|---|---|---|---|---|---|---|
| Sources/ScopeKit/API/Behavior.swift:48 | `Behavior` and `Scope` (Sources/ScopeKit/API/Scope.swift:62) declare an empty `didAttach(to:)`. It is the witness the type-erased `AnyScopedBehavior` calls, so it replaces the default in Sources/ScopeKit/Internal/ScopedBehaviorImpl.swift:61-63 that sends the host pointer. `attachSubscopes` therefore retains the nodes but never points them at the host. | `RootScope.attachSubscopes([b])` for a new behaviour `b`: the root retains `b`, yet `b` stays detached | hosted nodes point at their host and take its state, so they activate under an active host (Sources/ScopeKit/Internal/ScopeHostingImpl.swift:16) | high, not executed | ScopeRuntime.Runtime.AttachSubscopesAsWritten, Scenarios.HostInRootAsWritten | ScopeRuntime.Runtime.AttachSubscopes, Scenarios.HostInRoot |
| Sources/ScopeKit/API/Scope.swift:12 | Only `Scope.init` calls `initializeBehaviorLifecycle`. `Behavior` (Sources/ScopeKit/API/Behavior.swift:4-29) has no initialiser that starts a switch, and `BehaviorComponent.start(listener:)` (Sources/ScopeKit/Internal/BehaviorComponent.swift:9-12) has no caller. A behaviour's published state therefore stays detached, and `CancellableHolderBehavior.receive` (Sources/ScopeKit/API/CancellableHolderBehavior.swift:15-18) always cancels. | a new scope attached to a `RootScope`: its `whileActiveReceiver` receives a cancellable and cancels it at once, although the scope is active | every behaviour runs its lifecycle switch, so the receiver is active under an active scope and keeps what it receives until the scope deactivates (Sources/ScopeKit/API/CancellableHolderBehavior.swift:10-20) | high, not executed | ScopeRuntime.ReceiverCancelsAsWritten, Scenarios.ReceiverAsWritten | ScopeRuntime.Runtime.Receive, Scenarios.ReceiverUnderActiveScope |
