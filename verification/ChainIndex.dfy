/** The transaction index and the number map of a chain, and what a reorganisation makes of them
    (core/blockchain.go, core/rawdb/accessors_indexes.go, types/transaction.go). */
module ChainIndex {
  import opened Types
  import opened BlockTree

  /** Where a transaction is: block hash, block number, position in the block. */
  datatype Entry = Entry(block: Hash, number: nat, index: nat)

  predicate At(path: seq<Block>, tx: Tx, e: Entry) {
    && e.number < |path|
    && path[e.number].hash == e.block
    && e.index < |path[e.number].txs|
    && path[e.number].txs[e.index] == tx
  }

  predicate OnPath(path: seq<Block>, tx: Tx) {
    exists n :: 0 <= n < |path| && tx in path[n].txs
  }

  /** The index holds the transactions of the chain, no others, each with its true position. */
  ghost predicate Indexed(lookup: map<Tx, Entry>, path: seq<Block>) {
    forall tx: Tx ::
      && (tx in lookup ==> At(path, tx, lookup[tx]))
      && (OnPath(path, tx) ==> tx in lookup)
  }

  /** No transaction is in two blocks of the chain. */
  ghost predicate Once(path: seq<Block>) {
    forall n, m :: 0 <= n < m < |path| ==> forall tx :: tx in path[n].txs ==> tx !in path[m].txs
  }

  /** The canonical numbers are exactly those of the chain, with the hashes of its blocks. */
  ghost predicate Numbered(canon: map<nat, Hash>, path: seq<Block>) {
    && (forall n: nat :: n in canon <==> n < |path|)
    && (forall n: nat :: n < |path| ==> canon[n] == path[n].hash)
  }

  // ---------------------------------------------------------------- writing entries

  /** The index after the first `i` entries of a block are written. */
  function EnterBlock(lookup: map<Tx, Entry>, b: Block, i: nat): map<Tx, Entry>
    requires i <= |b.txs|
  {
    if i == 0 then lookup
    else EnterBlock(lookup, b, i - 1)[b.txs[i - 1] := Entry(b.hash, b.number, i - 1)]
  }

  /** The index after blocks `from` to `to` of a path are written. */
  function EnterBlocks(lookup: map<Tx, Entry>, path: seq<Block>, from: nat, to: nat): map<Tx, Entry>
    requires from <= to <= |path|
  {
    if from == to then lookup
    else EnterBlock(EnterBlocks(lookup, path, from, to - 1), path[to - 1], |path[to - 1].txs|)
  }

  /** The number map after blocks `from` to `to` of a path are inserted. */
  function NumberBlocks(canon: map<nat, Hash>, path: seq<Block>, from: nat, to: nat): map<nat, Hash>
    requires from <= to <= |path|
  {
    if from == to then canon
    else NumberBlocks(canon, path, from, to - 1)[path[to - 1].number := path[to - 1].hash]
  }

  /** The transactions of blocks `from` to `to`, lowest block first. */
  function TxsUp(path: seq<Block>, from: nat, to: nat): seq<Tx>
    requires from <= to <= |path|
  {
    if from == to then [] else TxsUp(path, from, to - 1) + path[to - 1].txs
  }

  /** What writing entries of a block makes of the index. */
  ghost predicate Entered(was: map<Tx, Entry>, now: map<Tx, Entry>, b: Block, i: nat)
    requires i <= |b.txs|
  {
    && (forall tx: Tx :: tx in now <==> tx in was || tx in b.txs[..i])
    && (forall tx: Tx :: tx in b.txs[..i] ==>
          now[tx].block == b.hash && now[tx].number == b.number &&
          now[tx].index < i && b.txs[now[tx].index] == tx)
    && (forall tx: Tx :: tx in was && tx !in b.txs[..i] ==> now[tx] == was[tx])
  }

  lemma {:induction false} EnterBlockEntered(was: map<Tx, Entry>, b: Block, i: nat)
    requires i <= |b.txs|
    ensures Entered(was, EnterBlock(was, b, i), b, i)
  {
    if i > 0 {
      EnterBlockEntered(was, b, i - 1);
      assert b.txs[..i] == b.txs[..i - 1] + [b.txs[i - 1]];
    }
  }

  /** Midway through a reorganisation: blocks `from` to `to` of the new chain are written over the
      old chain's entries. */
  ghost predicate Rewriting(was: map<Tx, Entry>, now: map<Tx, Entry>, path: seq<Block>, from: nat, to: nat)
    requires from <= to <= |path|
  {
    && (forall tx: Tx :: tx in now <==> tx in was || OnPath(path[from..to], tx))
    && (forall tx: Tx :: OnPath(path[from..to], tx) ==> At(path, tx, now[tx]))
    && (forall tx: Tx :: tx in was && !OnPath(path[from..to], tx) ==> now[tx] == was[tx])
  }

  lemma RewriteStep(was: map<Tx, Entry>, now: map<Tx, Entry>, next: map<Tx, Entry>, path: seq<Block>,
                    from: nat, to: nat)
    requires from <= to < |path| && path[to].number == to
    requires Rewriting(was, now, path, from, to)
    requires Entered(now, next, path[to], |path[to].txs|)
    ensures Rewriting(was, next, path, from, to + 1)
  {
    assert path[to].txs[..|path[to].txs|] == path[to].txs;
    forall tx: Tx
      ensures OnPath(path[from..to + 1], tx) <==> OnPath(path[from..to], tx) || tx in path[to].txs
    {
      SliceSnoc(path, from, to, tx);
    }
  }

  lemma RewriteNext(was: map<Tx, Entry>, now: map<Tx, Entry>, path: seq<Block>, from: nat, to: nat)
    requires from <= to < |path| && path[to].number == to && Rewriting(was, now, path, from, to)
    ensures Rewriting(was, EnterBlock(now, path[to], |path[to].txs|), path, from, to + 1)
  {
    EnterBlockEntered(now, path[to], |path[to].txs|);
    RewriteStep(was, now, EnterBlock(now, path[to], |path[to].txs|), path, from, to);
  }

  lemma {:induction false} EnterBlocksRewriting(was: map<Tx, Entry>, path: seq<Block>, from: nat, to: nat)
    requires from <= to <= |path| && forall n :: from <= n < to ==> path[n].number == n
    ensures Rewriting(was, EnterBlocks(was, path, from, to), path, from, to)
  {
    if from < to {
      EnterBlocksRewriting(was, path, from, to - 1);
      assert path[to - 1].number == to - 1;
      RewriteNext(was, EnterBlocks(was, path, from, to - 1), path, from, to - 1);
    } else {
      assert path[from..to] == [];
    }
  }

  lemma {:induction false} TxsUpHas(path: seq<Block>, from: nat, to: nat, tx: Tx)
    requires from <= to <= |path|
    ensures tx in TxsUp(path, from, to) <==> OnPath(path[from..to], tx)
  {
    if from < to {
      TxsUpHas(path, from, to - 1, tx);
      SliceSnoc(path, from, to - 1, tx);
    }
  }

  /** The canonical numbers after blocks `from` to `to` of `path` were inserted. */
  ghost predicate Renumbered(was: map<nat, Hash>, now: map<nat, Hash>, path: seq<Block>, from: nat, to: nat)
    requires from <= to <= |path|
  {
    && (forall n: nat :: n in now <==> n in was || from <= n < to)
    && (forall n: nat :: from <= n < to ==> now[n] == path[n].hash)
    && (forall n: nat :: n in was && !(from <= n < to) ==> now[n] == was[n])
  }

  lemma {:induction false} NumberBlocksRenumbered(was: map<nat, Hash>, path: seq<Block>, from: nat, to: nat)
    requires from <= to <= |path| && forall n :: from <= n < to ==> path[n].number == n
    ensures Renumbered(was, NumberBlocks(was, path, from, to), path, from, to)
  {
    if from < to {
      NumberBlocksRenumbered(was, path, from, to - 1);
    }
  }

  // ---------------------------------------------------------------- reorganising

  lemma RenumberedChain(was: map<nat, Hash>, p: seq<Block>, q: seq<Block>, k: nat)
    requires Forks(p, q, k) && |p| <= |q| && Numbered(was, p)
    requires forall n :: 0 <= n < |q| ==> q[n].number == n
    ensures Numbered(NumberBlocks(was, q, k + 1, |q|), q)
  {
    NumberBlocksRenumbered(was, q, k + 1, |q|);
    forall n: nat | n <= k
      ensures p[n] == q[n]
    {
      assert p[..k + 1][n] == q[..k + 1][n];
    }
  }

  lemma SliceSnoc(path: seq<Block>, from: nat, to: nat, tx: Tx)
    requires from <= to < |path|
    ensures OnPath(path[from..to + 1], tx) <==> OnPath(path[from..to], tx) || tx in path[to].txs
  {
    var big, small := path[from..to + 1], path[from..to];
    assert big == small + [path[to]];
    if OnPath(small, tx) {
      var n :| 0 <= n < |small| && tx in small[n].txs;
      assert tx in big[n].txs;
    }
    if tx in path[to].txs {
      assert tx in big[to - from].txs;
    }
  }

  lemma OnSlice(path: seq<Block>, from: nat, tx: Tx)
    requires from <= |path|
    ensures OnPath(path, tx) <==> OnPath(path[..from], tx) || OnPath(path[from..], tx)
  {
    var low, high := path[..from], path[from..];
    if OnPath(path, tx) {
      var n :| 0 <= n < |path| && tx in path[n].txs;
      if n < from {
        assert tx in low[n].txs;
      } else {
        assert tx in high[n - from].txs;
      }
    }
    if OnPath(low, tx) {
      var n :| 0 <= n < |low| && tx in low[n].txs;
      assert tx in path[n].txs;
    }
    if OnPath(high, tx) {
      var n :| 0 <= n < |high| && tx in high[n].txs;
      assert tx in path[n + from].txs;
    }
  }

  lemma OnceSplit(path: seq<Block>, from: nat, tx: Tx)
    requires Once(path) && from <= |path|
    ensures !(OnPath(path[..from], tx) && OnPath(path[from..], tx))
  {
  }

  /** After rewriting the new branch and deleting what is only on the old one, the index is that of
      the new chain. */
  lemma ReorgIndex(was: map<Tx, Entry>, p: seq<Block>, q: seq<Block>, k: nat)
    requires Forks(p, q, k) && Once(p) && Once(q) && Indexed(was, p)
    requires forall n :: 0 <= n < |q| ==> q[n].number == n
    ensures Indexed(Reindexed(was, p, q, k), q)
  {
    var written, now := EnterBlocks(was, q, k + 1, |q|), Reindexed(was, p, q, k);
    EnterBlocksRewriting(was, q, k + 1, |q|);
    forall tx: Tx
      ensures (tx in now ==> At(q, tx, now[tx])) && (OnPath(q, tx) ==> tx in now)
    {
      ReindexedAt(was, written, now, p, q, k, tx);
    }
  }

  lemma ReindexedAt(was: map<Tx, Entry>, written: map<Tx, Entry>, now: map<Tx, Entry>,
                    p: seq<Block>, q: seq<Block>, k: nat, tx: Tx)
    requires Forks(p, q, k) && Once(p) && Once(q) && Indexed(was, p)
    requires written == EnterBlocks(was, q, k + 1, |q|) && now == Reindexed(was, p, q, k)
    requires Rewriting(was, written, q, k + 1, |q|)
    ensures (tx in now ==> At(q, tx, now[tx])) && (OnPath(q, tx) ==> tx in now)
  {
    assert q[k + 1..|q|] == q[k + 1..];
    BranchIsSlice(p, k, tx);
    TxsUpHas(q, k + 1, |q|, tx);
    OnSlice(p, k + 1, tx);
    OnSlice(q, k + 1, tx);
    OnceSplit(p, k + 1, tx);
    OnceSplit(q, k + 1, tx);
    if tx in was {
      OldEntry(p, q, k, tx, was[tx]);
    }
  }

  /** The index after a reorganisation from `p` to `q`: the new branch written, then the
      transactions of the old branch that the new one lacks deleted. */
  function Reindexed(was: map<Tx, Entry>, p: seq<Block>, q: seq<Block>, k: nat): map<Tx, Entry>
    requires k < |p| && k < |q|
  {
    var diff := Difference(Branch(p, k), TxsUp(q, k + 1, |q|));
    EnterBlocks(was, q, k + 1, |q|) - (set tx | tx in diff)
  }

  lemma OldEntry(p: seq<Block>, q: seq<Block>, k: nat, tx: Tx, e: Entry)
    requires Forks(p, q, k) && At(p, tx, e)
    ensures if e.number > k then OnPath(p[k + 1..], tx) else At(q, tx, e)
  {
    if e.number > k {
      assert tx in p[k + 1..][e.number - (k + 1)].txs;
    } else {
      assert p[..k + 1][e.number] == q[..k + 1][e.number];
    }
  }

  lemma BranchIsSlice(path: seq<Block>, k: nat, tx: Tx)
    requires k < |path|
    ensures tx in Branch(path, k) <==> OnPath(path[k + 1..], tx)
  {
    BranchHas(path, k, tx);
    var high := path[k + 1..];
    if tx in Branch(path, k) {
      var n :| k < n < |path| && tx in path[n].txs;
      assert tx in high[n - (k + 1)].txs;
    }
    if OnPath(high, tx) {
      var n :| 0 <= n < |high| && tx in high[n].txs;
      assert tx in path[n + k + 1].txs;
    }
  }

  /** Writing the entries of the last block completes the index, or leaves it complete. */
  lemma TipEntered(was: map<Tx, Entry>, q: seq<Block>)
    requires q != [] && q[|q| - 1].number == |q| - 1 && Once(q)
    requires Indexed(was, q) || Indexed(was, q[..|q| - 1])
    ensures Indexed(EnterBlock(was, q[|q| - 1], |q[|q| - 1].txs|), q)
  {
    var n := |q| - 1;
    var now := EnterBlock(was, q[n], |q[n].txs|);
    EnterBlockEntered(was, q[n], |q[n].txs|);
    assert q[n].txs[..|q[n].txs|] == q[n].txs;
    forall tx: Tx
      ensures (tx in now ==> At(q, tx, now[tx])) && (OnPath(q, tx) ==> tx in now)
    {
      OnSlice(q, n, tx);
      assert q[n..] == [q[n]];
    }
  }

  lemma TipNumbered(was: map<nat, Hash>, q: seq<Block>)
    requires q != [] && q[|q| - 1].number == |q| - 1
    requires Numbered(was, q) || Numbered(was, q[..|q| - 1])
    ensures Numbered(was[|q| - 1 := q[|q| - 1].hash], q)
  {
  }

  // ---------------------------------------------------------------- transaction differences

  /** The members of `a` that are not in `b`, in order. */
  function Difference(a: seq<Tx>, b: seq<Tx>): (keep: seq<Tx>)
    ensures forall tx :: tx in keep <==> tx in a && tx !in b
  {
    if a == [] then []
    else (if a[0] in b then [] else [a[0]]) + Difference(a[1..], b)
  }

  lemma DifferenceStep(a: seq<Tx>, b: seq<Tx>, i: nat, keep: seq<Tx>)
    requires i < |a|
    ensures keep + Difference(a[i..], b)
         == (if a[i] in b then keep else keep + [a[i]]) + Difference(a[i + 1..], b)
  {
    assert a[i..][0] == a[i] && a[i..][1..] == a[i + 1..];
  }

  method TxDifference(a: seq<Tx>, b: seq<Tx>) returns (keep: seq<Tx>)
    ensures keep == Difference(a, b)
  {
    var remove := Hashes(b);
    keep := [];
    var i := 0;
    assert a[0..] == a;
    while i < |a|
      invariant i <= |a|
      invariant keep + Difference(a[i..], b) == Difference(a, b)
    {
      DifferenceStep(a, b, i, keep);
      if a[i] !in remove {
        keep := keep + [a[i]];
      }
      i := i + 1;
    }
    assert Difference(a[i..], b) == [];
  }

  method Hashes(b: seq<Tx>) returns (remove: set<Tx>)
    ensures forall tx :: tx in remove <==> tx in b
  {
    remove := {};
    var i := 0;
    while i < |b|
      invariant i <= |b|
      invariant forall tx :: tx in remove <==> tx in b[..i]
    {
      assert b[..i + 1] == b[..i] + [b[i]];
      remove := remove + {b[i]};
      i := i + 1;
    }
  }
}
