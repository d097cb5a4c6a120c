/** The pool's own walk between two heads, which finds the transactions to put back after a
    reorganisation (core/tx_pool.go). */
module ResetWalk {
  import opened Types
  import opened BlockTree
  import opened ChainIndex

  const MAX_REORG_DEPTH: nat := 64

  function Distance(a: nat, b: nat): nat {
    if a > b then a - b else b - a
  }

  /** The pool's walk from its old head and from the new head down to their common ancestor. It
      comes back empty-handed when just one of the two chains is rooted; when both are, it ends at
      their fork with the transactions of the old branch that the new branch lacks. */
  method WalkToFork(tree: Tree, ghost genesis: Block, oldHead: Block, newHead: Block)
    returns (r: Option<seq<Tx>>, ghost k: nat)
    requires Filed(tree) && Known(tree, oldHead) && Known(tree, newHead)
    ensures Rooted(tree, genesis, oldHead) != Rooted(tree, genesis, newHead) ==> r.None?
    ensures Rooted(tree, genesis, oldHead) && Rooted(tree, genesis, newHead) ==>
        var p, q := Path(tree, genesis, oldHead), Path(tree, genesis, newHead);
        Forks(p, q, k) && r == Some(Difference(Branch(p, k), Branch(q, k)))
  {
    k := 0;
    var rem, add := oldHead, newHead;
    var discarded: seq<Tx>, included: seq<Tx> := [], [];
    WalkStart(tree, genesis, oldHead);
    WalkStart(tree, genesis, newHead);
    while rem.number > add.number
      invariant Walked(tree, genesis, oldHead, rem, discarded) && Known(tree, rem)
      invariant rem.number >= add.number || rem == oldHead
    {
      WalkStep(tree, genesis, oldHead, rem, discarded);
      discarded := discarded + rem.txs;
      var up := Parent(tree, rem);
      if up.None? {
        return None, k;
      }
      rem := up.value;
    }
    while add.number > rem.number
      invariant Walked(tree, genesis, newHead, add, included) && Known(tree, add)
      invariant add.number >= rem.number
      invariant rem.number == oldHead.number || add.number == newHead.number
    {
      WalkStep(tree, genesis, newHead, add, included);
      included := included + add.txs;
      var up := Parent(tree, add);
      if up.None? {
        return None, k;
      }
      add := up.value;
    }
    while rem.hash != add.hash
      invariant rem.number == add.number && Known(tree, rem) && Known(tree, add)
      invariant Walked(tree, genesis, oldHead, rem, discarded)
      invariant Walked(tree, genesis, newHead, add, included)
      invariant Level(tree, genesis, oldHead, newHead, rem.number)
      decreases rem.number
    {
      WalkStep(tree, genesis, oldHead, rem, discarded);
      WalkStep(tree, genesis, newHead, add, included);
      if rem.number > 0 {
        LevelStep(tree, genesis, oldHead, newHead, rem, add, discarded, included);
      }
      discarded := discarded + rem.txs;
      var up := Parent(tree, rem);
      if up.None? {
        return None, k;
      }
      rem := up.value;
      included := included + add.txs;
      up := Parent(tree, add);
      if up.None? {
        return None, k;
      }
      add := up.value;
    }
    if Rooted(tree, genesis, oldHead) {
      LevelFork(tree, genesis, oldHead, newHead, rem, discarded, included);
    }
    k := rem.number;
    var reinject := TxDifference(discarded, included);
    return Some(reinject), k;
  }

  /** What a pool reset puts back: nothing without an old head, on a plain extension or beyond the
      depth limit, and otherwise what the walk finds; no answer means the reset is given up. */
  method Reinjected(tree: Tree, ghost genesis: Block, oldHead: Option<Block>, newHead: Block)
    returns (r: Option<seq<Tx>>)
    requires Filed(tree) && Known(tree, newHead) && Rooted(tree, genesis, newHead)
    requires oldHead.Some? ==> Known(tree, oldHead.value) && Rooted(tree, genesis, oldHead.value)
    requires genesis.parent !in tree
    ensures oldHead.None? ==> r == Some([])
    ensures oldHead.Some? ==>
        var p, q := Path(tree, genesis, oldHead.value), Path(tree, genesis, newHead);
        if oldHead.value.number > newHead.number + 64 || newHead.number > oldHead.value.number + 64 then r == Some([])
        else r.Some? && (Once(p) && Once(q) ==> forall tx :: tx in r.value <==> OnPath(p, tx) && !OnPath(q, tx))
  {
    if oldHead.None? {
      return Some([]);
    }
    var old' := oldHead.value;
    ghost var p, q := Path(tree, genesis, old'), Path(tree, genesis, newHead);
    if old'.hash == newHead.parent {
      if Distance(old'.number, newHead.number) <= MAX_REORG_DEPTH {
        ExtensionKeepsAll(tree, genesis, old', newHead);
      }
      return Some([]);
    }
    if Distance(old'.number, newHead.number) > MAX_REORG_DEPTH {
      return Some([]);
    }
    ghost var k;
    r, k := WalkToFork(tree, genesis, old', newHead);
    if Once(p) && Once(q) {
      DroppedExactly(p, q, k);
    }
  }

  /** Past a fork, missing from the new branch is the same as missing from the new chain. */
  lemma DroppedExactly(p: seq<Block>, q: seq<Block>, k: nat)
    requires Forks(p, q, k) && Once(p) && Once(q)
    ensures forall tx :: tx in Difference(Branch(p, k), Branch(q, k)) <==> OnPath(p, tx) && !OnPath(q, tx)
  {
    forall tx: Tx
      ensures tx in Difference(Branch(p, k), Branch(q, k)) <==> OnPath(p, tx) && !OnPath(q, tx)
    {
      BranchIsSlice(p, k, tx);
      BranchIsSlice(q, k, tx);
      OnSlice(p, k + 1, tx);
      OnSlice(q, k + 1, tx);
      OnceSplit(p, k + 1, tx);
    }
  }

  lemma ExtensionKeepsAll(tree: Tree, genesis: Block, b: Block, child: Block)
    requires Filed(tree) && Known(tree, b) && Known(tree, child) && child.parent == b.hash
    requires Rooted(tree, genesis, b) && Rooted(tree, genesis, child) && genesis.parent !in tree
    ensures forall tx :: OnPath(Path(tree, genesis, b), tx) ==> OnPath(Path(tree, genesis, child), tx)
  {
    var q := Path(tree, genesis, child);
    assert q[..b.number + 1] == Path(tree, genesis, b);
    forall tx | OnPath(Path(tree, genesis, b), tx)
      ensures OnPath(q, tx)
    {
      OnSlice(q, b.number + 1, tx);
    }
  }
}
