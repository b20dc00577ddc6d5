/**
 * The attachment graph of ScopeKit: behaviours and scopes point at the host
 * they are attached to (a root or a scope), and each derives its activity
 * state from that host.
 *
 * Host pointers are identities (`AnyScopedBehavior` and `AnyScopeHosting`
 * compare by object identity), so nodes and roots are numbered. The ghost
 * `depth` map is a ranking of the pointer graph: every scope a node points at
 * lies strictly shallower, which is the acyclicity the circular-attachment
 * guard of `Scope.attach` maintains, and what makes the recursive `ancestors`
 * list and the derived state well defined.
 */
module Topology {
  import opened Results
  import opened Lifecycle

  type NodeId = nat
  type RootId = nat

  /** Something that can host: a `RootScope` or a `Scope`. */
  datatype HostRef = Root(root: RootId) | Sub(scope: NodeId)

  /** The host pointer of every node; `None` when it has no host. */
  type Pointers = map<NodeId, Option<HostRef>>

  ghost predicate Ranked(ptr: Pointers, depth: map<NodeId, nat>)
  {
    && depth.Keys == ptr.Keys
    && forall m {:trigger ptr[m]} | m in ptr && ptr[m].Some? && ptr[m].value.Sub? ::
         ptr[m].value.scope in ptr && depth[ptr[m].value.scope] < depth[m]
  }

  /** `ancestors` of a host: itself, followed by its host's ancestors. A root
      has no host, so its list is the root alone. */
  function Ancestors(ptr: Pointers, ghost depth: map<NodeId, nat>, h: HostRef): (r: seq<HostRef>)
    requires Ranked(ptr, depth)
    requires h.Sub? ==> h.scope in ptr
    ensures |r| > 0 && r[0] == h
    decreases if h.Sub? then depth[h.scope] + 1 else 0
  {
    match h
    case Root(_) => [h]
    case Sub(s) =>
      match ptr[s]
      case None => [h]
      case Some(p) => [h] + Ancestors(ptr, depth, p)
  }

  /** The state a node publishes once the whole chain above it has settled,
      each node deriving its own from its host's: detached exactly when it has
      no host (and, by `ActiveIffRooted`, active exactly when its chain of
      hosts ends at a root). */
  ghost function Derived(ptr: Pointers, depth: map<NodeId, nat>, m: NodeId): (s: ActivityState)
    requires Ranked(ptr, depth) && m in ptr
    ensures s == Detached <==> ptr[m].None?
    decreases depth[m]
  {
    match ptr[m]
    case None => Derive(true, Detached)
    case Some(Root(_)) => Derive(false, Active)
    case Some(Sub(p)) => Derive(false, Derived(ptr, depth, p))
  }

  /** A node is active exactly when the last of its ancestors is a root:
      roots are permanently active, and activity flows down the chain. */
  lemma {:induction false} ActiveIffRooted(ptr: Pointers, depth: map<NodeId, nat>, m: NodeId)
    requires Ranked(ptr, depth) && m in ptr
    ensures Derived(ptr, depth, m) == Active <==> Last(Ancestors(ptr, depth, Sub(m))).Root?
    decreases depth[m]
  {
    match ptr[m]
    case None =>
    case Some(Root(r)) =>
      assert Ancestors(ptr, depth, Sub(m)) == [Sub(m), Root(r)];
    case Some(Sub(p)) =>
      ActiveIffRooted(ptr, depth, p);
      var rest := Ancestors(ptr, depth, Sub(p));
      assert Ancestors(ptr, depth, Sub(m)) == [Sub(m)] + rest;
      assert Last([Sub(m)] + rest) == Last(rest);
  }

  function Last<T>(s: seq<T>): T
    requires |s| > 0
  {
    s[|s| - 1]
  }

  /** The state a node reads from its host: a root is always active, and a
      scope publishes its cached state. */
  function HostState(state: map<NodeId, ActivityState>, h: HostRef): ActivityState
    requires h.Sub? ==> h.scope in state
  {
    match h
    case Root(_) => Active
    case Sub(p) => state[p]
  }

  predicate PointsInto(ptr: Pointers, state: map<NodeId, ActivityState>)
  {
    forall m {:trigger ptr[m]} | m in ptr && ptr[m].Some? && ptr[m].value.Sub? :: ptr[m].value.scope in state
  }

  /** The state a node publishes when its host pointer is `v`: detached
      without a host, otherwise derived from the state its host publishes. */
  function FromHost(state: map<NodeId, ActivityState>, v: Option<HostRef>): ActivityState
    requires v.Some? && v.value.Sub? ==> v.value.scope in state
  {
    match v
    case None => Derive(true, Detached)
    case Some(h) => Derive(false, HostState(state, h))
  }

  /** One step of the state derivation, as each node computes it from its own
      host pointer and its host's published state. */
  function LocalRule(ptr: Pointers, state: map<NodeId, ActivityState>, m: NodeId): (r: ActivityState)
    requires m in ptr && PointsInto(ptr, state)
    ensures r == FromHost(state, ptr[m])
  {
    match ptr[m]
    case None => Derive(true, Detached)
    case Some(h) => Derive(false, HostState(state, h))
  }

  /** Every cached state equals the derived one. */
  ghost predicate Coherent(ptr: Pointers, depth: map<NodeId, nat>, state: map<NodeId, ActivityState>)
  {
    && Ranked(ptr, depth)
    && state.Keys == ptr.Keys
    && forall m {:trigger Derived(ptr, depth, m)} | m in ptr :: state[m] == Derived(ptr, depth, m)
  }

  lemma {:induction false} LocalGivesDerived(ptr: Pointers, depth: map<NodeId, nat>, state: map<NodeId, ActivityState>, m: NodeId)
    requires Ranked(ptr, depth) && state.Keys == ptr.Keys && m in ptr
    requires forall x | x in ptr :: state[x] == LocalRule(ptr, state, x)
    ensures state[m] == Derived(ptr, depth, m)
    decreases depth[m]
  {
    match ptr[m]
    case None =>
    case Some(Root(_)) =>
    case Some(Sub(p)) => LocalGivesDerived(ptr, depth, state, p);
  }

  /** In a coherent tree each node's state is the one its host gives it. */
  lemma HostedState(ptr: Pointers, depth: map<NodeId, nat>, state: map<NodeId, ActivityState>, n: NodeId)
    requires Coherent(ptr, depth, state) && n in ptr
    ensures ptr[n].Some? && ptr[n].value.Sub? ==> ptr[n].value.scope in state
    ensures state[n] == FromHost(state, ptr[n])
  {
    CoherentIffLocal(ptr, depth, state);
  }

  /** Every node of `ns` that points at `h` has the state `h` gives it. */
  lemma HostedStates(ptr: Pointers, depth: map<NodeId, nat>, state: map<NodeId, ActivityState>, ns: seq<NodeId>, h: HostRef)
    requires Coherent(ptr, depth, state) && (h.Sub? ==> h.scope in state)
    requires forall i | 0 <= i < |ns| :: ns[i] in ptr && ptr[ns[i]] == Some(h)
    ensures forall i | 0 <= i < |ns| :: state[ns[i]] == FromHost(state, Some(h))
  {
    forall i | 0 <= i < |ns| ensures state[ns[i]] == FromHost(state, Some(h)) {
      HostedState(ptr, depth, state, ns[i]);
    }
  }

  /** In a coherent tree a node is detached exactly when it has no host. */
  lemma DetachedIffUnhosted(ptr: Pointers, depth: map<NodeId, nat>, state: map<NodeId, ActivityState>)
    requires Coherent(ptr, depth, state)
    ensures forall m | m in ptr :: state[m] == Detached <==> ptr[m].None?
  {
    forall m | m in ptr ensures state[m] == Detached <==> ptr[m].None? {
      assert state[m] == Derived(ptr, depth, m);
    }
  }

  /** The cached states agree with the global derivation exactly when every
      node agrees with its own host by the local rule: propagating one edge at
      a time computes "active iff the chain ends at a root". */
  lemma CoherentIffLocal(ptr: Pointers, depth: map<NodeId, nat>, state: map<NodeId, ActivityState>)
    requires Ranked(ptr, depth) && state.Keys == ptr.Keys
    ensures Coherent(ptr, depth, state) <==> forall m | m in ptr :: state[m] == LocalRule(ptr, state, m)
  {
    if forall m | m in ptr :: state[m] == LocalRule(ptr, state, m) {
      forall m | m in ptr ensures state[m] == Derived(ptr, depth, m) {
        LocalGivesDerived(ptr, depth, state, m);
      }
    }
    if Coherent(ptr, depth, state) {
      forall m | m in ptr ensures state[m] == LocalRule(ptr, state, m) {
        assert state[m] == Derived(ptr, depth, m);
        if ptr[m].Some? && ptr[m].value.Sub? {
          var p := ptr[m].value.scope;
          assert state[p] == Derived(ptr, depth, p);
        }
      }
    }
  }

  /** Every node of `ptr` has the state the local rule gives it from its
      host's: the states a cascade leaves behind under the pointers `ptr`. */
  predicate Steady(ptr: Pointers, state: map<NodeId, ActivityState>)
  {
    && state.Keys == ptr.Keys && PointsInto(ptr, state)
    && forall m | m in ptr :: state[m] == LocalRule(ptr, state, m)
  }

  /** Coherent states are settled. */
  lemma CoherentSteady(ptr: Pointers, depth: map<NodeId, nat>, state: map<NodeId, ActivityState>)
    requires Coherent(ptr, depth, state)
    ensures Steady(ptr, state)
  {
    CoherentIffLocal(ptr, depth, state);
  }

  /** Over acyclic pointers there is only one settled assignment of states:
      the derived one. */
  lemma SteadyUnique(ptr: Pointers, depth: map<NodeId, nat>, a: map<NodeId, ActivityState>, b: map<NodeId, ActivityState>)
    requires Ranked(ptr, depth) && Steady(ptr, a) && Steady(ptr, b)
    ensures a == b
  {
    CoherentIffLocal(ptr, depth, a);
    CoherentIffLocal(ptr, depth, b);
    forall m | m in ptr ensures a[m] == b[m] {
      assert a[m] == Derived(ptr, depth, m);
    }
  }

  /** Re-pointing a node that hosts nothing moves its own state to the one
      its new host gives, and no other state. */
  lemma LeafRepoint(ptr: Pointers, depth: map<NodeId, nat>, state: map<NodeId, ActivityState>,
                    n: NodeId, v: Option<HostRef>, depth': map<NodeId, nat>)
    requires Coherent(ptr, depth, state) && n in ptr
    requires forall m | m in ptr :: ptr[m] != Some(Sub(n))
    requires Ranked(ptr[n := v], depth')
    ensures v.Some? && v.value.Sub? ==> v.value.scope in state
    ensures Coherent(ptr[n := v], depth', state[n := FromHost(state, v)])
  {
    var ptr' := ptr[n := v];
    assert ptr'[n] == v;
    var state' := state[n := FromHost(state, v)];
    CoherentIffLocal(ptr, depth, state);
    forall m | m in ptr' ensures state'[m] == LocalRule(ptr', state', m) {
      if m != n {
        assert ptr'[m] == ptr[m];
        assert state[m] == LocalRule(ptr, state, m);
      }
    }
    CoherentIffLocal(ptr', depth', state');
  }

  /** Re-pointing a node at a host whose published state gives the node the
      state it already has leaves every cached state coherent: nothing needs
      to move, below the node or anywhere else. */
  lemma QuietRepoint(ptr: Pointers, depth: map<NodeId, nat>, state: map<NodeId, ActivityState>,
                     n: NodeId, v: Option<HostRef>, depth': map<NodeId, nat>)
    requires Coherent(ptr, depth, state) && n in ptr
    requires Ranked(ptr[n := v], depth')
    requires v.Some? && v.value.Sub? ==> v.value.scope in state
    requires FromHost(state, v) == state[n]
    ensures Coherent(ptr[n := v], depth', state)
  {
    var ptr' := ptr[n := v];
    CoherentIffLocal(ptr, depth, state);
    forall m | m in ptr' ensures state[m] == LocalRule(ptr', state, m) {
      if m != n {
        assert ptr'[m] == ptr[m];
        assert state[m] == LocalRule(ptr, state, m);
      }
    }
    CoherentIffLocal(ptr', depth', state);
  }

  /** A node that no host pointer chain leads through: changing its pointer
      leaves every other ancestors list unchanged. */
  lemma {:induction false} AncestorsFrame(ptr: Pointers, depth: map<NodeId, nat>, ptr': Pointers, depth': map<NodeId, nat>,
                                          x: NodeId, v: Option<HostRef>, h: HostRef)
    requires Ranked(ptr, depth) && Ranked(ptr', depth')
    requires x in ptr && ptr' == ptr[x := v]
    requires h.Sub? ==> h.scope in ptr
    requires Sub(x) !in Ancestors(ptr, depth, h)
    ensures Ancestors(ptr', depth', h) == Ancestors(ptr, depth, h)
    decreases if h.Sub? then depth[h.scope] + 1 else 0
  {
    match h
    case Root(_) =>
    case Sub(s) =>
      assert s != x;
      match ptr[s]
      case None =>
      case Some(p) =>
        assert Ancestors(ptr, depth, h) == [h] + Ancestors(ptr, depth, p);
        AncestorsFrame(ptr, depth, ptr', depth', x, v, p);
    }

  /** The ranking after node `n` is made to point at `v`: when `v` is a scope,
      everything whose chain runs through `n` (the subtree being moved) sinks
      below the new host. */
  ghost function Shifted(ptr: Pointers, depth: map<NodeId, nat>, n: NodeId, v: Option<HostRef>): map<NodeId, nat>
    requires Ranked(ptr, depth) && n in ptr
    requires v.Some? && v.value.Sub? ==> v.value.scope in ptr
  {
    if v.Some? && v.value.Sub? then
      map m | m in ptr :: if Sub(n) in Ancestors(ptr, depth, Sub(m)) then depth[m] + depth[v.value.scope] + 1 else depth[m]
    else depth
  }

  /** Re-pointing a node keeps the graph acyclic as long as the new host does
      not have the node among its ancestors, which is the circular-attachment
      check. */
  lemma RepointKeepsRanked(ptr: Pointers, depth: map<NodeId, nat>, n: NodeId, v: Option<HostRef>)
    requires Ranked(ptr, depth) && n in ptr
    requires v.Some? && v.value.Sub? ==> v.value.scope in ptr && Sub(n) !in Ancestors(ptr, depth, v.value)
    ensures Ranked(ptr[n := v], Shifted(ptr, depth, n, v))
  {
    var ptr' := ptr[n := v];
    var depth' := Shifted(ptr, depth, n, v);
    if v.Some? && v.value.Sub? {
      var p := v.value.scope;
      forall m | m in ptr' && ptr'[m].Some? && ptr'[m].value.Sub?
        ensures ptr'[m].value.scope in ptr' && depth'[ptr'[m].value.scope] < depth'[m]
      {
        var q := ptr'[m].value.scope;
        if m != n {
          assert Ancestors(ptr, depth, Sub(m)) == [Sub(m)] + Ancestors(ptr, depth, Sub(q));
          assert Sub(n) in Ancestors(ptr, depth, Sub(m)) <==> Sub(n) in Ancestors(ptr, depth, Sub(q));
        }
      }
    }
  }

  /** Every entry of an ancestors list below its head is a scope some node
      points at, or the root the chain ends at. */
  lemma {:induction false} AncestorsAreHosts(ptr: Pointers, depth: map<NodeId, nat>, h: HostRef, i: nat)
    requires Ranked(ptr, depth)
    requires h.Sub? ==> h.scope in ptr
    requires 0 < i < |Ancestors(ptr, depth, h)|
    ensures exists m | m in ptr :: ptr[m] == Some(Ancestors(ptr, depth, h)[i])
    decreases if h.Sub? then depth[h.scope] + 1 else 0
  {
    match h
    case Root(_) =>
    case Sub(s) =>
      match ptr[s]
      case None =>
      case Some(p) =>
        if i == 1 {
          assert ptr[s] == Some(Ancestors(ptr, depth, h)[i]);
        } else {
          AncestorsAreHosts(ptr, depth, p, i - 1);
        }
  }

  /** Among finitely many ranked nodes there is one with no other of them
      strictly shallower. */
  lemma Shallowest(depth: map<NodeId, nat>, s: set<NodeId>) returns (m: NodeId)
    requires s != {} && s <= depth.Keys
    ensures m in s && forall x | x in s :: depth[m] <= depth[x]
    decreases s
  {
    var y :| y in s;
    if s == {y} {
      m := y;
    } else {
      var m' := Shallowest(depth, s - {y});
      m := if depth[y] <= depth[m'] then y else m';
    }
  }
}
