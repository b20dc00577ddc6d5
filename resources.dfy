/**
 * The resource holders of ScopeKit: `CancellableHolder` (a set of
 * cancellables with `receive` and `reset`) and `CancelBag` (a set of
 * cancellables with cancel-all and merge-and-empty).
 *
 * A cancellable is an opaque token; cancelling it is recorded in the holder's
 * `cancelled` multiset, so that "cancelled exactly once" can be stated. The
 * pure `Holding` value and `Apply` are the specification both classes are
 * proved against; `ExactlyOnce` is the property that justifies them.
 */
module Resources {

  /** A cancellable: the work one activation window stored (`Work`), or an
      item received by a while-active holder (`Item`). Each carries the node
      it belongs to and a serial number. */
  datatype Token = Work(node: nat, window: nat) | Item(node: nat, index: nat)

  /** What a holder holds, and how often it has cancelled each token. */
  datatype Holding = Holding(held: set<Token>, cancelled: multiset<Token>)

  datatype HolderOp = Receiving(t: Token) | Resetting

  /** `receive` stores the token (a set: storing it again changes nothing);
      `reset` cancels every stored token once and empties the set. */
  function Apply(s: Holding, op: HolderOp): Holding
  {
    match op
    case Receiving(t) => Holding(s.held + {t}, s.cancelled)
    case Resetting => Holding({}, s.cancelled + multiset(s.held))
  }

  function Replay(s: Holding, ops: seq<HolderOp>): Holding
    decreases |ops|
  {
    if ops == [] then s else Apply(Replay(s, ops[..|ops| - 1]), ops[|ops| - 1])
  }

  /** No token is handed to the holder twice. */
  predicate FreshReceipts(ops: seq<HolderOp>)
  {
    forall i, j | 0 <= i < j < |ops| && ops[j].Receiving? :: ops[i] != ops[j]
  }

  /** Starting from an empty holder, every token received has been cancelled
      exactly once if it is no longer held, and not at all while it is held;
      nothing that was never received is cancelled or held. */
  lemma {:induction false} ExactlyOnce(ops: seq<HolderOp>)
    requires FreshReceipts(ops)
    ensures forall t :: Replay(Holding({}, multiset{}), ops).cancelled[t]
                        == if Receiving(t) in ops && t !in Replay(Holding({}, multiset{}), ops).held then 1 else 0
    ensures forall t | t in Replay(Holding({}, multiset{}), ops).held :: Receiving(t) in ops
    decreases |ops|
  {
    var empty := Holding({}, multiset{});
    if ops != [] {
      var prefix := ops[..|ops| - 1];
      var op := ops[|ops| - 1];
      assert FreshReceipts(prefix);
      ExactlyOnce(prefix);
      var s := Replay(empty, prefix);
      assert Replay(empty, ops) == Apply(s, op);
      forall t ensures Receiving(t) in ops <==> Receiving(t) in prefix || op == Receiving(t) {
        assert ops == prefix + [op];
      }
    }
  }

  /** Resetting twice cancels nothing the first reset did not. */
  lemma ResetIdempotent(s: Holding)
    ensures Apply(Apply(s, Resetting), Resetting) == Apply(s, Resetting)
  {
    assert multiset(Apply(s, Resetting).held) == multiset{};
  }

  /** A reset followed by new receipts: the new tokens are held, not
      cancelled, until the next reset. */
  lemma ReceiveAfterReset(s: Holding, t: Token)
    ensures var r := Apply(Apply(s, Resetting), Receiving(t));
            r.held == {t} && r.cancelled[t] == s.cancelled[t] + (if t in s.held then 1 else 0)
  {
  }

  // ---------------------------------------------------------------------------

  /** `CancellableHolder`: a set of cancellables. */
  class CancellableHolder {
    var cancellables: set<Token>
    var cancelled: multiset<Token>

    function Snapshot(): Holding
      reads this
    {
      Holding(cancellables, cancelled)
    }

    constructor ()
      ensures Snapshot() == Holding({}, multiset{})
    {
      cancellables := {};
      cancelled := multiset{};
    }

    method Receive(t: Token)
      modifies this
      ensures Snapshot() == Apply(old(Snapshot()), Receiving(t))
    {
      cancellables := cancellables + {t};
    }

    /** Cancels every stored cancellable, one at a time, then empties the set. */
    method Reset()
      modifies this
      ensures Snapshot() == Apply(old(Snapshot()), Resetting)
    {
      var rest := cancellables;
      while rest != {}
        invariant rest <= cancellables == old(cancellables)
        invariant cancelled == old(cancelled) + multiset(cancellables - rest)
        decreases rest
      {
        var c :| c in rest;
        assert cancellables - (rest - {c}) == (cancellables - rest) + {c};
        cancelled := cancelled + multiset{c};
        rest := rest - {c};
      }
      assert cancellables - rest == cancellables;
      cancellables := {};
    }
  }

  // ---------------------------------------------------------------------------

  /** `CancelBag`: a set of cancellables that are cancelled together. */
  class CancelBag {
    var cancellables: set<Token>
    var cancelled: multiset<Token>

    function Snapshot(): Holding
      reads this
    {
      Holding(cancellables, cancelled)
    }

    /** Builds the bag from a collection: duplicates collapse into one entry. */
    constructor (items: seq<Token>)
      ensures forall t :: t in cancellables <==> t in items
      ensures cancelled == multiset{}
    {
      cancellables := set t | t in items;
      cancelled := multiset{};
    }

    /** Cancels all work owned here, then empties the bag. */
    method Cancel()
      modifies this
      ensures Snapshot() == Apply(old(Snapshot()), Resetting)
    {
      var rest := cancellables;
      while rest != {}
        invariant rest <= cancellables == old(cancellables)
        invariant cancelled == old(cancelled) + multiset(cancellables - rest)
        decreases rest
      {
        var c :| c in rest;
        assert cancellables - (rest - {c}) == (cancellables - rest) + {c};
        cancelled := cancelled + multiset{c};
        rest := rest - {c};
      }
      assert cancellables - rest == cancellables;
      cancellables := {};
    }

    /** Deinitialisation cancels whatever is still in the bag. */
    method Deinit()
      modifies this
      ensures Snapshot() == Apply(old(Snapshot()), Resetting)
    {
      Cancel();
    }

    /** `AnyCancellable.store(in:)`: adds one cancellable to the bag. */
    method Store(t: Token)
      modifies this
      ensures Snapshot() == Apply(old(Snapshot()), Receiving(t))
    {
      cancellables := cancellables + {t};
    }

    /** Merging: the target bag takes every cancellable of this one and this
        one is emptied; the moved cancellables are not cancelled. Merging a
        bag into itself only empties it, and an `AnyCancellable` cancels
        itself once the last reference to it goes, so that merge cancels
        everything the bag held. */
    method StoreIn(scope: CancelBag)
      modifies this, scope
      ensures scope != this ==> scope.cancellables == old(scope.cancellables) + old(cancellables)
      ensures scope != this ==> cancelled == old(cancelled) && scope.cancelled == old(scope.cancelled)
      ensures scope == this ==> Snapshot() == Apply(old(Snapshot()), Resetting)
      ensures cancellables == {}
    {
      if scope == this {
        Cancel();
      } else {
        scope.cancellables := scope.cancellables + cancellables;
        cancellables := {};
      }
    }
  }
}
