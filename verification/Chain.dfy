/** Upkeep of the canonical chain: choosing the head and reorganising (core/blockchain.go). */
module Chain {
  import opened Types
  import opened BlockTree
  import opened ChainIndex

  datatype Status = Canonical | Side | Failed

  /** Midway between two heads: the walk from `a` stands at `c` and the walk from `b` at `d`. */
  ghost predicate Descending(tree: Tree, genesis: Block, a: Block, b: Block, c: Block, d: Block,
                             newChain: seq<Block>, deletedTxs: seq<Tx>, addedTxs: seq<Tx>)
  {
    && Known(tree, c)
    && (d.hash in tree ==> tree[d.hash] == d)
    && Walked(tree, genesis, a, c, deletedTxs)
    && Walked(tree, genesis, b, d, addedTxs)
    && Listed(tree, genesis, b, d, newChain)
  }

  lemma DescendStep(tree: Tree, genesis: Block, a: Block, b: Block, c: Block, d: Block,
                    newChain: seq<Block>, deletedTxs: seq<Tx>, addedTxs: seq<Tx>)
    requires Filed(tree) && Rooted(tree, genesis, a) && c.number == d.number && c.hash != d.hash
    requires Descending(tree, genesis, a, b, c, d, newChain, deletedTxs, addedTxs)
    ensures Parent(tree, c).None? || Parent(tree, d).None? ==> !Rooted(tree, genesis, b)
    ensures Parent(tree, c).Some? && Parent(tree, d).Some? ==>
        && Descending(tree, genesis, a, b, Parent(tree, c).value, Parent(tree, d).value,
                      newChain + [d], deletedTxs + c.txs, addedTxs + d.txs)
        && Level(tree, genesis, a, b, c.number - 1)
  {
    WalkStep(tree, genesis, a, c, deletedTxs);
    WalkStep(tree, genesis, b, d, addedTxs);
    if Parent(tree, c).Some? && Parent(tree, d).Some? {
      LevelStep(tree, genesis, a, b, c, d, deletedTxs, addedTxs);
      ListStep(tree, genesis, b, d, newChain, addedTxs);
    }
  }

  /** What the descent ends with: the fork, the old branch's transactions, and the new branch's
      blocks from the top down. */
  ghost predicate ForkFound(p: seq<Block>, q: seq<Block>, k: nat, newChain: seq<Block>, deletedTxs: seq<Tx>) {
    && Forks(p, q, k)
    && deletedTxs == Branch(p, k)
    && |newChain| == |q| - (k + 1)
    && (forall i :: 0 <= i < |newChain| ==> newChain[i] == q[|q| - 1 - i])
  }

  lemma DescendEnd(tree: Tree, genesis: Block, a: Block, b: Block, c: Block, d: Block,
                   newChain: seq<Block>, deletedTxs: seq<Tx>, addedTxs: seq<Tx>)
    requires Rooted(tree, genesis, a) && c.number == d.number && c.hash == d.hash
    requires Descending(tree, genesis, a, b, c, d, newChain, deletedTxs, addedTxs)
    requires Level(tree, genesis, a, b, c.number)
    ensures Rooted(tree, genesis, b)
    ensures ForkFound(Path(tree, genesis, a), Path(tree, genesis, b), c.number, newChain, deletedTxs)
  {
    LevelFork(tree, genesis, a, b, c, deletedTxs, addedTxs);
  }

  predicate IsCanonical(canon: map<nat, Hash>, b: Block) {
    b.number in canon && canon[b.number] == b.hash
  }

  /** The tip of a new branch was not canonical before. */
  lemma NewTip(tree: Tree, genesis: Block, canon: map<nat, Hash>, a: Block, b: Block, k: nat)
    requires Filed(tree) && Known(tree, a) && (b.hash in tree ==> tree[b.hash] == b)
    requires Rooted(tree, genesis, a) && Rooted(tree, genesis, b)
    requires Numbered(canon, Path(tree, genesis, a))
    requires Forks(Path(tree, genesis, a), Path(tree, genesis, b), k) && k < b.number
    ensures !IsCanonical(canon, b)
  {
    var p, q := Path(tree, genesis, a), Path(tree, genesis, b);
    if IsCanonical(canon, b) {
      PathKnown(tree, genesis, a, b.number);
      PathPrefix(tree, genesis, a, b.number);
    }
  }

  /** The number map and the transaction index say exactly what the head's chain is, and no
      transaction is on that chain twice. */
  ghost predicate ChainOk(tree: Tree, genesis: Block, canon: map<nat, Hash>, lookup: map<Tx, Entry>, head: Block) {
    && Filed(tree)
    && Known(tree, head)
    && Rooted(tree, genesis, head)
    && Once(Path(tree, genesis, head))
    && Numbered(canon, Path(tree, genesis, head))
    && Indexed(lookup, Path(tree, genesis, head))
  }

  /** Filing a block that does not win changes nothing. */
  lemma SideOk(tree: Tree, genesis: Block, canon: map<nat, Hash>, lookup: map<Tx, Entry>, head: Block, b: Block)
    requires ChainOk(tree, genesis, canon, lookup, head) && (b.hash in tree ==> tree[b.hash] == b)
    ensures ChainOk(tree[b.hash := b], genesis, canon, lookup, head)
  {
    PathStable(tree, tree[b.hash := b], genesis, head);
  }

  /** The records fit the chain ending in `b`, or everything on it but `b` itself. */
  ghost predicate Ready(tree: Tree, genesis: Block, canon: map<nat, Hash>, lookup: map<Tx, Entry>, b: Block) {
    && Filed(tree)
    && (b.hash in tree ==> tree[b.hash] == b)
    && Rooted(tree, genesis, b)
    && (var q := Path(tree, genesis, b);
        && Once(q)
        && (Numbered(canon, q) || Numbered(canon, q[..b.number]))
        && (Indexed(lookup, q) || Indexed(lookup, q[..b.number])))
  }

  lemma CrownOk(tree: Tree, genesis: Block, canon: map<nat, Hash>, lookup: map<Tx, Entry>, b: Block)
    requires Ready(tree, genesis, canon, lookup, b)
    ensures ChainOk(tree[b.hash := b], genesis, canon[b.number := b.hash], EnterBlock(lookup, b, |b.txs|), b)
  {
    var q := Path(tree, genesis, b);
    CrownTree(tree, tree[b.hash := b], genesis, b, q);
    CrownRecords(canon, lookup, b, q);
    ChainOkFrom(tree[b.hash := b], genesis, canon[b.number := b.hash], EnterBlock(lookup, b, |b.txs|), b, q);
  }

  lemma CrownTree(tree: Tree, more: Tree, genesis: Block, b: Block, q: seq<Block>)
    requires Filed(tree) && (b.hash in tree ==> tree[b.hash] == b) && more == tree[b.hash := b]
    requires Rooted(tree, genesis, b) && q == Path(tree, genesis, b)
    ensures Filed(more) && Known(more, b) && Rooted(more, genesis, b) && Path(more, genesis, b) == q
    ensures |q| == b.number + 1 && q[b.number] == b
  {
    PathStable(tree, more, genesis, b);
    PathIsChain(tree, genesis, b);
  }

  lemma ChainOkFrom(tree: Tree, genesis: Block, canon: map<nat, Hash>, lookup: map<Tx, Entry>, head: Block,
                    q: seq<Block>)
    requires Filed(tree) && Known(tree, head) && Rooted(tree, genesis, head) && Path(tree, genesis, head) == q
    requires Once(q) && Numbered(canon, q) && Indexed(lookup, q)
    ensures ChainOk(tree, genesis, canon, lookup, head)
  {
  }

  lemma CrownRecords(canon: map<nat, Hash>, lookup: map<Tx, Entry>, b: Block, q: seq<Block>)
    requires |q| == b.number + 1 && q[b.number] == b && Once(q)
    requires Numbered(canon, q) || Numbered(canon, q[..b.number])
    requires Indexed(lookup, q) || Indexed(lookup, q[..b.number])
    ensures Numbered(canon[b.number := b.hash], q) && Indexed(EnterBlock(lookup, b, |b.txs|), q)
  {
    TipEntered(lookup, q);
    TipNumbered(canon, q);
  }

  /** A block on top of the head finds the records ready. */
  lemma ExtensionReady(tree: Tree, genesis: Block, canon: map<nat, Hash>, lookup: map<Tx, Entry>, head: Block, b: Block)
    requires ChainOk(tree, genesis, canon, lookup, head) && (b.hash in tree ==> tree[b.hash] == b)
    requires b.parent == head.hash && b.number == head.number + 1
    requires Rooted(tree, genesis, b) ==> Once(Path(tree, genesis, b))
    ensures Ready(tree, genesis, canon, lookup, b) && !IsCanonical(canon, b)
  {
    assert Path(tree, genesis, b)[..b.number] == Path(tree, genesis, head);
  }

  /** So does a block that is at least as high as the head, after the reorganisation. */
  lemma ReorgReady(tree: Tree, genesis: Block, canon: map<nat, Hash>, lookup: map<Tx, Entry>, head: Block, b: Block,
                   k: nat)
    requires ChainOk(tree, genesis, canon, lookup, head) && (b.hash in tree ==> tree[b.hash] == b)
    requires Rooted(tree, genesis, b) && Once(Path(tree, genesis, b)) && head.number <= b.number
    requires Forks(Path(tree, genesis, head), Path(tree, genesis, b), k)
    ensures var p, q := Path(tree, genesis, head), Path(tree, genesis, b);
        Ready(tree, genesis, NumberBlocks(canon, q, k + 1, |q|), Reindexed(lookup, p, q, k), b)
    ensures k == b.number ==> b == head
  {
    var p, q := Path(tree, genesis, head), Path(tree, genesis, b);
    PathIsChain(tree, genesis, b);
    RenumberedChain(canon, p, q, k);
    ReorgIndex(lookup, p, q, k);
    if k == b.number {
      assert p[..k + 1] == p && q[..k + 1] == q;
    }
  }

  class BlockChain {
    const genesis: Block
    var tree: Tree
    var canon: map<nat, Hash>
    var lookup: map<Tx, Entry>
    var head: Block
    var headHeader: Block
    var headFast: Block

    ghost predicate Valid()
      reads this
    {
      ChainOk(tree, genesis, canon, lookup, head) && headHeader == headFast == head
    }

    constructor (first: Block)
      requires first.number == 0 && first.txs == []
      ensures Valid() && genesis == head == first
    {
      genesis := first;
      tree := map[first.hash := first];
      canon := map[0 := first.hash];
      lookup := map[];
      head, headHeader, headFast := first, first, first;
    }

    /** Makes a block the head under its number; the other heads follow when the block was not
        canonical before. */
    method Insert(b: Block)
      modifies this`canon, this`head, this`headHeader, this`headFast
      ensures canon == old(canon)[b.number := b.hash]
      ensures head == b
      ensures if IsCanonical(old(canon), b)
              then headHeader == old(headHeader) && headFast == old(headFast)
              else headHeader == b && headFast == b
    {
      var updateHeads := !IsCanonical(canon, b);
      canon := canon[b.number := b.hash];
      head := b;
      if updateHeads {
        headHeader := b;
        headFast := b;
      }
    }

    method WriteTxLookupEntries(b: Block)
      modifies this`lookup
      ensures lookup == EnterBlock(old(lookup), b, |b.txs|)
    {
      var i := 0;
      while i < |b.txs|
        invariant i <= |b.txs|
        invariant lookup == EnterBlock(old(lookup), b, i)
      {
        lookup := lookup[b.txs[i] := Entry(b.hash, b.number, i)];
        i := i + 1;
      }
    }

    /** Brings the higher of the two blocks down to the number of the other. */
    method LevelDown(a: Block, b: Block)
      returns (ok: bool, c: Block, d: Block, newChain: seq<Block>, deletedTxs: seq<Tx>, ghost addedTxs: seq<Tx>)
      requires Filed(tree) && Known(tree, a) && Rooted(tree, genesis, a)
      requires b.hash in tree ==> tree[b.hash] == b
      ensures !ok ==> !Rooted(tree, genesis, b)
      ensures ok ==> c.number == d.number && Descending(tree, genesis, a, b, c, d, newChain, deletedTxs, addedTxs)
      ensures ok ==> Level(tree, genesis, a, b, c.number)
    {
      newChain, deletedTxs, addedTxs := [], [], [];
      c, d := a, b;
      WalkStart(tree, genesis, a);
      WalkStart(tree, genesis, b);
      if c.number > d.number {
        while c.number != d.number
          invariant c.number >= d.number && Known(tree, c)
          invariant Walked(tree, genesis, a, c, deletedTxs)
          decreases c.number
        {
          WalkStep(tree, genesis, a, c, deletedTxs);
          deletedTxs := deletedTxs + c.txs;
          var up := Parent(tree, c);
          c := up.value;
        }
      } else {
        while d.number != c.number
          invariant d.number >= c.number
          invariant Descending(tree, genesis, a, b, c, d, newChain, deletedTxs, addedTxs)
          decreases d.number
        {
          WalkStep(tree, genesis, b, d, addedTxs);
          var up := Parent(tree, d);
          if up.None? {
            return false, c, d, newChain, deletedTxs, addedTxs;
          }
          ListStep(tree, genesis, b, d, newChain, addedTxs);
          newChain := newChain + [d];
          addedTxs := addedTxs + d.txs;
          d := up.value;
        }
      }
      ok := true;
    }

    /** The blocks to insert and the transactions to drop when the chain moves from `a` to `b`; it
        fails exactly when the new chain is not rooted. */
    method FindFork(a: Block, b: Block)
      returns (ok: bool, newChain: seq<Block>, deletedTxs: seq<Tx>, ghost k: nat)
      requires Filed(tree) && Known(tree, a) && Rooted(tree, genesis, a)
      requires b.hash in tree ==> tree[b.hash] == b
      ensures ok <==> Rooted(tree, genesis, b)
      ensures ok ==> ForkFound(Path(tree, genesis, a), Path(tree, genesis, b), k, newChain, deletedTxs)
    {
      var c, d;
      ghost var addedTxs;
      k := 0;
      ok, c, d, newChain, deletedTxs, addedTxs := LevelDown(a, b);
      if !ok {
        return;
      }
      while c.hash != d.hash
        invariant c.number == d.number
        invariant Descending(tree, genesis, a, b, c, d, newChain, deletedTxs, addedTxs)
        invariant Level(tree, genesis, a, b, c.number)
        decreases c.number
      {
        DescendStep(tree, genesis, a, b, c, d, newChain, deletedTxs, addedTxs);
        var oldUp, newUp := Parent(tree, c), Parent(tree, d);
        if oldUp.None? || newUp.None? {
          return false, newChain, deletedTxs, k;
        }
        newChain := newChain + [d];
        deletedTxs := deletedTxs + c.txs;
        addedTxs := addedTxs + d.txs;
        c, d := oldUp.value, newUp.value;
      }
      DescendEnd(tree, genesis, a, b, c, d, newChain, deletedTxs, addedTxs);
      k := c.number;
    }

    /** Inserts the new branch from the fork upwards, writing its index entries. */
    method InsertBranch(newChain: seq<Block>, ghost q: seq<Block>, ghost k: nat) returns (addedTxs: seq<Tx>)
      requires k < |q| == k + 1 + |newChain|
      requires forall i :: 0 <= i < |newChain| ==> newChain[i] == q[|q| - 1 - i]
      requires forall n :: 0 <= n < |q| ==> q[n].number == n
      modifies this`canon, this`head, this`headHeader, this`headFast, this`lookup
      ensures canon == NumberBlocks(old(canon), q, k + 1, |q|)
      ensures lookup == EnterBlocks(old(lookup), q, k + 1, |q|)
      ensures addedTxs == TxsUp(q, k + 1, |q|)
      ensures newChain == [] ==> head == old(head) && headHeader == old(headHeader) && headFast == old(headFast)
      ensures newChain != [] ==> head == newChain[0]
      ensures newChain != [] && !IsCanonical(old(canon), newChain[0]) ==> headHeader == headFast == newChain[0]
    {
      addedTxs := [];
      var i := |newChain|;
      while i > 0
        invariant 0 <= i <= |newChain|
        invariant canon == NumberBlocks(old(canon), q, k + 1, |q| - i)
        invariant lookup == EnterBlocks(old(lookup), q, k + 1, |q| - i)
        invariant addedTxs == TxsUp(q, k + 1, |q| - i)
        invariant i == |newChain| ==> head == old(head) && headHeader == old(headHeader) && headFast == old(headFast)
        invariant i < |newChain| ==> head == newChain[i]
        invariant i < |newChain| && !IsCanonical(old(canon), newChain[i]) ==> headHeader == headFast == newChain[i]
      {
        i := i - 1;
        NotYet(old(canon), q, k + 1, |q| - 1 - i);
        Insert(newChain[i]);
        WriteTxLookupEntries(newChain[i]);
        addedTxs := addedTxs + newChain[i].txs;
      }
    }

    method DeleteTxLookupEntries(diff: seq<Tx>)
      modifies this`lookup
      ensures lookup == old(lookup) - (set tx | tx in diff)
    {
      var i := 0;
      while i < |diff|
        invariant i <= |diff|
        invariant lookup == old(lookup) - (set tx | tx in diff[..i])
      {
        assert diff[..i + 1] == diff[..i] + [diff[i]];
        lookup := lookup - {diff[i]};
        i := i + 1;
      }
      assert diff[..i] == diff;
    }

    /** Rewrites the records for a new branch that leaves the old chain at `k`. */
    method Rewrite(newChain: seq<Block>, deletedTxs: seq<Tx>, ghost p: seq<Block>, ghost q: seq<Block>, ghost k: nat)
      requires ForkFound(p, q, k, newChain, deletedTxs)
      requires forall n :: 0 <= n < |q| ==> q[n].number == n
      modifies this`canon, this`head, this`headHeader, this`headFast, this`lookup
      ensures canon == NumberBlocks(old(canon), q, k + 1, |q|)
      ensures lookup == Reindexed(old(lookup), p, q, k)
      ensures newChain == [] ==> head == old(head) && headHeader == old(headHeader) && headFast == old(headFast)
      ensures newChain != [] ==> head == newChain[0]
      ensures newChain != [] && !IsCanonical(old(canon), newChain[0]) ==> headHeader == headFast == newChain[0]
    {
      var addedTxs := InsertBranch(newChain, q, k);
      var diff := TxDifference(deletedTxs, addedTxs);
      DeleteTxLookupEntries(diff);
    }

    /** Moves the records to the chain ending in `b`. It fails, leaving everything as it was,
        exactly when that chain is not rooted. */
    method Reorg(b: Block) returns (ok: bool, ghost k: nat)
      requires Valid() && (b.hash in tree ==> tree[b.hash] == b)
      modifies this`canon, this`head, this`headHeader, this`headFast, this`lookup
      ensures ok <==> Rooted(tree, genesis, b)
      ensures !ok ==> unchanged(this)
      ensures ok ==>
          var p, q := Path(tree, genesis, old(head)), Path(tree, genesis, b);
          && Forks(p, q, k)
          && canon == NumberBlocks(old(canon), q, k + 1, |q|)
          && lookup == Reindexed(old(lookup), p, q, k)
          && headHeader == headFast == head == if k < b.number then b else old(head)
    {
      ghost var p := Path(tree, genesis, head);
      var newChain, deletedTxs;
      ok, newChain, deletedTxs, k := FindFork(head, b);
      if !ok {
        return;
      }
      ghost var q := Path(tree, genesis, b);
      PathIsChain(tree, genesis, b);
      if k < b.number {
        NewTip(tree, genesis, canon, head, b, k);
      }
      Rewrite(newChain, deletedTxs, p, q, k);
    }

    /** Files a new block and decides whether it becomes the head: always when it is higher, by the
        toss of a coin when it is as high. A winner takes over the whole chain. */
    method WriteBlock(b: Block, coin: bool) returns (status: Status)
      requires Valid() && (b.hash in tree ==> tree[b.hash] == b)
      requires b.parent == head.hash ==> b.number == head.number + 1
      requires Rooted(tree, genesis, b) ==> Once(Path(tree, genesis, b))
      modifies this
      ensures Valid()
      ensures
          var wins := b.number > old(head).number || (b.number == old(head).number && coin);
          && (status == Canonical <==> wins && Rooted(old(tree), genesis, b))
          && (status == Side <==> !wins)
      ensures status == Canonical ==> head == b && tree == old(tree)[b.hash := b]
      ensures status == Side ==> head == old(head) && tree == old(tree)[b.hash := b]
      ensures status == Failed ==> unchanged(this)
    {
      var reorg := b.number > head.number;
      if !reorg && b.number == head.number {
        reorg := b.number < head.number || (b.number == head.number && coin);
      }
      if !reorg {
        SideOk(tree, genesis, canon, lookup, head, b);
        tree := tree[b.hash := b];
        return Side;
      }
      if b.parent == head.hash {
        ExtensionReady(tree, genesis, canon, lookup, head, b);
      } else {
        var ok := Takeover(b);
        if !ok {
          return Failed;
        }
      }
      Crown(b);
      return Canonical;
    }

    /** The reorganisation for a block that wins and does not sit on the head. */
    method Takeover(b: Block) returns (ok: bool)
      requires Valid() && (b.hash in tree ==> tree[b.hash] == b) && head.number <= b.number
      requires Rooted(tree, genesis, b) ==> Once(Path(tree, genesis, b))
      modifies this`canon, this`head, this`headHeader, this`headFast, this`lookup
      ensures ok <==> Rooted(tree, genesis, b)
      ensures !ok ==> unchanged(this)
      ensures ok ==> Ready(tree, genesis, canon, lookup, b) && headHeader == headFast == b
    {
      ghost var was, numbers, entries := head, canon, lookup;
      ghost var k;
      ok, k := Reorg(b);
      if ok {
        ReorgReady(tree, genesis, numbers, entries, was, b, k);
      }
    }

    /** Files a block whose branch is canonical already and makes it the head. */
    method Crown(b: Block)
      requires Ready(tree, genesis, canon, lookup, b) && (IsCanonical(canon, b) ==> headHeader == headFast == b)
      modifies this
      ensures Valid() && head == b && tree == old(tree)[b.hash := b]
    {
      CrownOk(tree, genesis, canon, lookup, b);
      WriteTxLookupEntries(b);
      tree := tree[b.hash := b];
      Insert(b);
    }
  }

  /** Inserting lower blocks leaves the next number as it was. */
  lemma {:induction false} NotYet(canon: map<nat, Hash>, q: seq<Block>, from: nat, to: nat)
    requires from <= to < |q| && forall n :: 0 <= n < |q| ==> q[n].number == n
    ensures var now := NumberBlocks(canon, q, from, to);
        IsCanonical(now, q[to]) <==> IsCanonical(canon, q[to])
  {
    NumberBlocksRenumbered(canon, q, from, to);
  }
}
