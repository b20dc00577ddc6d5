/**
 * Where every cancellable of a node ends up.
 *
 * Each node owns a behaviour holder, which receives the work `willActivate`
 * produces and is reset by `deactivate`; a while-active holder behaviour also
 * keeps the holder its `receive` fills, reset by its `didDeactivate`, and
 * cancels at once what it receives while not active. Tokens are numbered per
 * node (`Work(n, w)` for the w-th activation window, `Item(n, i)` for the
 * i-th received item), so what each holder holds and what it has cancelled
 * is determined by a few counters: `WorkHolding` and `ItemHolding` below. The
 * lemmas show that every operation of the node moves its holders from one
 * such value to the next, and that these values cancel every token exactly
 * once.
 */
module Accounts {
  import opened Lifecycle
  import opened Resources

  /** The work tokens of the first `k` activation windows of node `n`, each
      once. */
  function WorkTokens(n: nat, k: nat): (r: multiset<Token>)
    ensures forall t :: r[t] == if t.Work? && t.node == n && t.window < k then 1 else 0
    decreases k
  {
    if k == 0 then multiset{} else WorkTokens(n, k - 1) + multiset{Work(n, k - 1)}
  }

  /** The first `k` items received by node `n`, each once. */
  function ItemTokens(n: nat, k: nat): (r: multiset<Token>)
    ensures forall t :: r[t] == if t.Item? && t.node == n && t.index < k then 1 else 0
    decreases k
  {
    if k == 0 then multiset{} else ItemTokens(n, k - 1) + multiset{Item(n, k - 1)}
  }

  /** The items of node `n` numbered from `lo` up to, not including, `hi`. */
  function ItemRange(n: nat, lo: nat, hi: nat): (r: set<Token>)
    ensures forall t :: t in r <==> t.Item? && t.node == n && lo <= t.index < hi
    decreases hi
  {
    if hi <= lo then {} else ItemRange(n, lo, hi - 1) + {Item(n, hi - 1)}
  }

  /** The behaviour holder of node `n` after `w` activation windows: while the
      node is active it holds the work of the open window, and the work of
      every earlier window has been cancelled. */
  function WorkHolding(n: nat, w: nat, s: ActivityState): Holding
  {
    if s == Active && w > 0 then Holding({Work(n, w - 1)}, WorkTokens(n, w - 1))
    else Holding({}, WorkTokens(n, w))
  }

  /** The items of node `n` after `hi` receipts, the current active window
      having begun at receipt `lo`: the items of the window are held and every
      earlier one has been cancelled (by a reset, or at receipt). */
  function ItemHolding(n: nat, lo: nat, hi: nat): Holding
  {
    Holding(ItemRange(n, lo, hi), ItemTokens(n, lo))
  }

  /** `activate` stores the work of a new window in the empty holder. */
  lemma OpenWindow(n: nat, w: nat, s: ActivityState)
    requires s != Active
    ensures Apply(WorkHolding(n, w, s), Receiving(Work(n, w))) == WorkHolding(n, w + 1, Active)
  {
    assert {} + {Work(n, w)} == {Work(n, w)};
  }

  /** `deactivate` resets the holder: the open window's work is cancelled. */
  lemma CloseWindow(n: nat, w: nat, next: ActivityState)
    requires w > 0 && next != Active
    ensures Apply(WorkHolding(n, w, Active), Resetting) == WorkHolding(n, w, next)
  {
    assert multiset({Work(n, w - 1)}) == multiset{Work(n, w - 1)};
  }

  /** An active holder behaviour stores a newly received item. */
  lemma StoreItem(n: nat, lo: nat, hi: nat)
    requires lo <= hi
    ensures Apply(ItemHolding(n, lo, hi), Receiving(Item(n, hi))) == ItemHolding(n, lo, hi + 1)
  {
  }

  /** An item received while the behaviour is not active is cancelled at once,
      and the (empty) window moves past it. */
  lemma DropItem(n: nat, r: nat)
    ensures var h := ItemHolding(n, r, r);
            Holding(h.held, h.cancelled + multiset{Item(n, r)}) == ItemHolding(n, r + 1, r + 1)
  {
  }

  /** The items before a window and the items of the window are together
      all the items received. */
  lemma ItemsSplit(n: nat, lo: nat, hi: nat)
    requires lo <= hi
    ensures ItemTokens(n, lo) + multiset(ItemRange(n, lo, hi)) == ItemTokens(n, hi)
  {
    forall t ensures (ItemTokens(n, lo) + multiset(ItemRange(n, lo, hi)))[t] == ItemTokens(n, hi)[t] {
    }
  }

  /** `didDeactivate` of a holder behaviour resets its holder: every item of
      the window is cancelled, and the next window begins after them. */
  lemma CloseItems(n: nat, lo: nat, hi: nat)
    requires lo <= hi
    ensures Apply(ItemHolding(n, lo, hi), Resetting) == ItemHolding(n, hi, hi)
  {
    ItemsSplit(n, lo, hi);
  }

  /** Every window's work is cancelled exactly once, when that window
      closes; the work of the open window is held and not yet cancelled;
      nothing else is ever held or cancelled. */
  lemma WorkExactlyOnce(n: nat, w: nat, s: ActivityState, t: Token)
    ensures var h := WorkHolding(n, w, s);
            && (t in h.held <==> s == Active && w > 0 && t == Work(n, w - 1))
            && h.cancelled[t] == if t.Work? && t.node == n && t.window < w && t !in h.held then 1 else 0
  {
  }

  /** Every item received is cancelled exactly once (at receipt or by the
      reset that ends the window it was stored in) unless it is held in the
      open window, where it is not cancelled at all; nothing that was not
      received is held or cancelled. */
  lemma ItemsExactlyOnce(n: nat, lo: nat, hi: nat, t: Token)
    requires lo <= hi
    ensures var h := ItemHolding(n, lo, hi);
            && (t in h.held <==> t.Item? && t.node == n && lo <= t.index < hi)
            && h.cancelled[t] == if t.Item? && t.node == n && t.index < hi && t !in h.held then 1 else 0
  {
  }
}
