/** Blocks keyed by hash, the path from genesis to a block, and the point where two paths fork. */
module BlockTree {
  import opened Types

  type Hash = nat

  datatype Block = Block(hash: Hash, parent: Hash, number: nat, txs: seq<Tx>)

  type Tree = map<Hash, Block>

  /** The block stored under a hash and a number, if any. No block has a negative number. */
  function GetBlock(tree: Tree, hash: Hash, number: int): Option<Block> {
    if hash in tree && tree[hash].number == number then Some(tree[hash]) else None
  }

  function Parent(tree: Tree, b: Block): Option<Block> {
    GetBlock(tree, b.parent, b.number - 1)
  }

  /** Every block of the tree is filed under its own hash. */
  predicate Filed(tree: Tree) {
    forall h :: h in tree ==> tree[h].hash == h
  }

  /** `b` is the block its hash stands for. */
  predicate Known(tree: Tree, b: Block) {
    b.hash in tree && tree[b.hash] == b
  }

  /** All ancestors of `b` are stored, down to the genesis block. */
  predicate Rooted(tree: Tree, genesis: Block, b: Block)
    decreases b.number
  {
    if b.number == 0 then b == genesis
    else Parent(tree, b).Some? && Rooted(tree, genesis, Parent(tree, b).value)
  }

  /** The blocks from genesis to `b`, so that the block at index n has number n. */
  function Path(tree: Tree, genesis: Block, b: Block): (path: seq<Block>)
    requires Rooted(tree, genesis, b)
    ensures |path| == b.number + 1 && path[b.number] == b
    decreases b.number
  {
    if b.number == 0 then [b] else Path(tree, genesis, Parent(tree, b).value) + [b]
  }

  /** What makes a sequence of blocks a chain, said without the tree: it starts at genesis, is
      numbered from zero, and each block names the one before it as its parent. */
  predicate IsChain(genesis: Block, path: seq<Block>) {
    && path != []
    && path[0] == genesis
    && (forall n :: 0 <= n < |path| ==> path[n].number == n)
    && (forall n :: 0 < n < |path| ==> path[n].parent == path[n - 1].hash)
  }

  lemma {:induction false} PathIsChain(tree: Tree, genesis: Block, b: Block)
    requires Rooted(tree, genesis, b) && Filed(tree)
    ensures IsChain(genesis, Path(tree, genesis, b))
    decreases b.number
  {
    if b.number > 0 {
      PathIsChain(tree, genesis, Parent(tree, b).value);
    }
  }

  /** Going down a path stays on it. */
  lemma {:induction false} PathPrefix(tree: Tree, genesis: Block, b: Block, n: nat)
    requires Rooted(tree, genesis, b) && n <= b.number
    ensures var c := Path(tree, genesis, b)[n];
        c.number == n && Rooted(tree, genesis, c) &&
        Path(tree, genesis, c) == Path(tree, genesis, b)[..n + 1]
    decreases b.number
  {
    var path := Path(tree, genesis, b);
    if n == b.number {
      assert path[..n + 1] == path;
    } else {
      var p := Parent(tree, b).value;
      PathPrefix(tree, genesis, p, n);
      assert path[..n + 1] == Path(tree, genesis, p)[..n + 1];
    }
  }

  /** Storing more blocks changes no path. */
  lemma {:induction false} PathStable(tree: Tree, more: Tree, genesis: Block, b: Block)
    requires Rooted(tree, genesis, b)
    requires forall h :: h in tree ==> h in more && more[h] == tree[h]
    ensures Rooted(more, genesis, b) && Path(more, genesis, b) == Path(tree, genesis, b)
    decreases b.number
  {
    if b.number > 0 {
      PathStable(tree, more, genesis, Parent(tree, b).value);
    }
  }

  /** The ancestors of a known block are known. */
  lemma {:induction false} PathKnown(tree: Tree, genesis: Block, b: Block, n: nat)
    requires Rooted(tree, genesis, b) && Filed(tree) && Known(tree, b) && n <= b.number
    ensures Known(tree, Path(tree, genesis, b)[n])
    decreases b.number
  {
    if n < b.number {
      PathKnown(tree, genesis, Parent(tree, b).value, n);
    }
  }

  /** Paths agree up to block `k` and part there: `k` is the lowest common ancestor. */
  predicate Forks(p: seq<Block>, q: seq<Block>, k: nat) {
    && k < |p| && k < |q|
    && p[..k + 1] == q[..k + 1]
    && (k + 1 < |p| && k + 1 < |q| ==> p[k + 1] != q[k + 1])
  }

  lemma ForkUnique(p: seq<Block>, q: seq<Block>, k: nat, m: nat)
    requires Forks(p, q, k) && Forks(p, q, m)
    ensures k == m
  {
    forall j | 0 <= j <= k || 0 <= j <= m
      ensures p[j] == q[j]
    {
      var n := if j <= k then k else m;
      assert p[..n + 1][j] == p[j] && q[..n + 1][j] == q[j];
    }
  }

  /** The transactions of the blocks above number `k`, from the tip downwards. */
  function Branch(path: seq<Block>, k: nat): seq<Tx>
    requires k < |path|
    decreases |path|
  {
    if k == |path| - 1 then [] else path[|path| - 1].txs + Branch(path[..|path| - 1], k)
  }

  lemma {:induction false} BranchDown(path: seq<Block>, k: nat)
    requires 0 < k < |path|
    ensures Branch(path, k - 1) == Branch(path, k) + path[k].txs
    decreases |path|
  {
    var front := path[..|path| - 1];
    if k < |path| - 1 {
      BranchDown(front, k);
      assert front[k] == path[k];
    } else {
      assert Branch(front, k - 1) == [];
    }
  }

  /** A transaction is on a branch exactly when a block above `k` holds it. */
  lemma {:induction false} BranchHas(path: seq<Block>, k: nat, tx: Tx)
    requires k < |path|
    ensures tx in Branch(path, k) <==> exists n :: k < n < |path| && tx in path[n].txs
    decreases |path|
  {
    if k < |path| - 1 {
      var front := path[..|path| - 1];
      BranchHas(front, k, tx);
      if tx in Branch(front, k) {
        var n :| k < n < |front| && tx in front[n].txs;
        assert tx in path[n].txs;
      }
      if exists n :: k < n < |path| && tx in path[n].txs {
        var n :| k < n < |path| && tx in path[n].txs;
        if n < |path| - 1 {
          assert tx in front[n].txs;
        }
      }
    }
  }

  // ---------------------------------------------------------------- walking down one side

  /** The walk from `top` has come down to `at`, having gone through the blocks above it. */
  ghost predicate Walked(tree: Tree, genesis: Block, top: Block, at: Block, txs: seq<Tx>) {
    && at.number <= top.number
    && (Rooted(tree, genesis, top) <==> Rooted(tree, genesis, at))
    && (Rooted(tree, genesis, top) ==>
          var path := Path(tree, genesis, top);
          at == path[at.number] && txs == Branch(path, at.number))
  }

  lemma WalkStart(tree: Tree, genesis: Block, top: Block)
    ensures Walked(tree, genesis, top, top, [])
  {
  }

  lemma WalkStep(tree: Tree, genesis: Block, top: Block, at: Block, txs: seq<Tx>)
    requires Walked(tree, genesis, top, at, txs)
    ensures Rooted(tree, genesis, top) ==> if at.number == 0 then at == genesis else Parent(tree, at).Some?
    ensures Parent(tree, at).Some? ==> Walked(tree, genesis, top, Parent(tree, at).value, txs + at.txs)
  {
    if Parent(tree, at).Some? && Rooted(tree, genesis, top) {
      var path := Path(tree, genesis, top);
      PathPrefix(tree, genesis, top, at.number);
      BranchDown(path, at.number);
      var below := Path(tree, genesis, at);
      assert below[at.number - 1] == Parent(tree, at).value;
      assert path[..at.number + 1][at.number - 1] == path[at.number - 1];
    }
  }

  /** Where two walks over the same tree meet, the paths fork. */
  lemma WalksMeet(tree: Tree, genesis: Block, a: Block, b: Block, at: Block, x: seq<Tx>, y: seq<Tx>)
    requires Walked(tree, genesis, a, at, x) && Walked(tree, genesis, b, at, y)
    requires Rooted(tree, genesis, a)
    ensures Rooted(tree, genesis, b)
    ensures Path(tree, genesis, a)[..at.number + 1] == Path(tree, genesis, b)[..at.number + 1]
  {
    PathPrefix(tree, genesis, a, at.number);
    PathPrefix(tree, genesis, b, at.number);
  }

  /** The blocks gone through on the way from `top` down to `at`, the top one first. */
  ghost predicate Listed(tree: Tree, genesis: Block, top: Block, at: Block, list: seq<Block>) {
    && at.number <= top.number
    && |list| == top.number - at.number
    && (Rooted(tree, genesis, top) ==>
          forall i :: 0 <= i < |list| ==> list[i] == Path(tree, genesis, top)[top.number - i])
  }

  lemma ListStep(tree: Tree, genesis: Block, top: Block, at: Block, list: seq<Block>, txs: seq<Tx>)
    requires Listed(tree, genesis, top, at, list) && Walked(tree, genesis, top, at, txs)
    requires Parent(tree, at).Some?
    ensures Listed(tree, genesis, top, Parent(tree, at).value, list + [at])
  {
  }

  /** Two walks standing at the same number: above them the paths, if they both go on, differ. */
  ghost predicate Level(tree: Tree, genesis: Block, a: Block, b: Block, n: nat)
    requires n <= a.number && n <= b.number
  {
    Rooted(tree, genesis, a) && Rooted(tree, genesis, b) && n < a.number && n < b.number ==>
      Path(tree, genesis, a)[n + 1] != Path(tree, genesis, b)[n + 1]
  }

  lemma LevelFork(tree: Tree, genesis: Block, a: Block, b: Block, at: Block, x: seq<Tx>, y: seq<Tx>)
    requires Walked(tree, genesis, a, at, x) && Walked(tree, genesis, b, at, y)
    requires Level(tree, genesis, a, b, at.number) && Rooted(tree, genesis, a)
    ensures Rooted(tree, genesis, b)
    ensures Forks(Path(tree, genesis, a), Path(tree, genesis, b), at.number)
    ensures x == Branch(Path(tree, genesis, a), at.number)
    ensures y == Branch(Path(tree, genesis, b), at.number)
  {
    WalksMeet(tree, genesis, a, b, at, x, y);
  }

  lemma LevelStep(tree: Tree, genesis: Block, a: Block, b: Block, c: Block, d: Block, x: seq<Tx>, y: seq<Tx>)
    requires Walked(tree, genesis, a, c, x) && Walked(tree, genesis, b, d, y)
    requires c.number == d.number > 0 && c != d
    ensures Level(tree, genesis, a, b, c.number - 1)
  {
  }
}
