/** The price heap over all pooled transactions (core/tx_list.go): entries are left behind when
    their transaction leaves the pool and are skipped, counted or rebuilt away later. */
module Priced {
  import opened Types
  import Heap

  /** Cheaper first; at equal price the higher nonce first. */
  function PriceLess(x: Tx, y: Tx): bool {
    x.price < y.price || (x.price == y.price && x.nonce > y.nonce)
  }

  /** Whether the sender is one of the local accounts. */
  predicate IsLocal(tx: Tx, locals: set<Address>) { tx.signed && tx.sender in locals }

  class TxLookup {
    var all: set<Tx>

    constructor ()
      ensures all == {}
    {
      all := {};
    }
  }

  /** Every live transaction has an entry. */
  ghost predicate Covers(items: seq<Tx>, live: set<Tx>) {
    forall tx :: tx in live ==> tx in items
  }

  ghost predicate NoDuplicates(items: seq<Tx>) {
    forall tx :: multiset(items)[tx] <= 1
  }

  /** No entry of `items` is cheaper than one of `first`, or as cheap with a higher nonce. */
  ghost predicate Precede(first: seq<Tx>, items: seq<Tx>) {
    forall x, y :: x in first && y in items ==> x.price < y.price || (x.price == y.price && x.nonce >= y.nonce)
  }

  /** In the order of prices, and of nonces from the highest down at equal price. */
  ghost predicate Ascending(s: seq<Tx>) {
    forall i, j :: 0 <= i < j < |s| ==>
      s[i].price < s[j].price || (s[i].price == s[j].price && s[i].nonce >= s[j].nonce)
  }

  lemma PoppedInOrder(drop: seq<Tx>, before: seq<Tx>, after: seq<Tx>, tx: Tx)
    requires Ascending(drop) && Precede(drop, before) && Precede([tx], before)
    requires forall x :: x in before <==> x in after || x == tx
    ensures Precede(drop, after) && Ascending(drop + [tx]) && Precede(drop + [tx], after)
  {
    forall x | x in drop ensures x.price < tx.price || (x.price == tx.price && x.nonce >= tx.nonce) {
      assert tx in before;
    }
    forall x, y | x in drop + [tx] && y in after
      ensures x.price < y.price || (x.price == y.price && x.nonce >= y.nonce)
    {
      assert y in before && tx in [tx];
    }
  }

  /** A transaction still live that had a price entry, or was not pooled before, has one now. */
  ghost predicate KeepsEntries(all0: set<Tx>, items0: seq<Tx>, all: set<Tx>, items: seq<Tx>) {
    forall tx :: tx in all && (tx in all0 ==> tx in items0) ==> tx in items
  }

  lemma SameElements(s: seq<Tx>, t: seq<Tx>)
    requires multiset(s) == multiset(t)
    ensures forall tx :: tx in s <==> tx in t
  {
    forall tx ensures tx in s <==> tx in t {
      assert tx in s <==> tx in multiset(s);
      assert tx in t <==> tx in multiset(t);
    }
  }

  lemma PushElements(s: seq<Tx>, t: seq<Tx>, x: Tx)
    requires multiset(s) == multiset(t) + multiset{x}
    ensures forall tx :: tx in s <==> tx in t || tx == x
  {
    assert multiset(t + [x]) == multiset(s);
    SameElements(s, t + [x]);
  }

  class PricedList {
    const lookup: TxLookup
    var items: seq<Tx>
    var stales: int

    ghost predicate Valid()
      reads this
    {
      Heap.IsHeap(PriceLess, items)
    }

    constructor (lookup: TxLookup)
      ensures Valid() && this.lookup == lookup && items == [] && stales == 0
    {
      this.lookup, items, stales := lookup, [], 0;
    }

    method Put(tx: Tx)
      requires Valid()
      modifies this`items
      ensures Valid() && multiset(items) == multiset(old(items)) + multiset{tx}
      ensures forall x :: x in items <==> x in old(items) || x == tx
    {
      items := Heap.Push(PriceLess, items, tx);
      PushElements(items, old(items), tx);
    }

    /** Counts one more stale entry; past a quarter of the heap, rebuilds it from the live set. */
    method Removed()
      requires Valid()
      modifies this
      ensures Valid() && forall tx :: tx in lookup.all && tx in old(items) ==> tx in items
      ensures
        if old(stales) + 1 <= |old(items)| / 4 then items == old(items) && stales == old(stales) + 1
        else multiset(items) == multiset(lookup.all) && stales == 0
    {
      stales := stales + 1;
      if stales <= |items| / 4 { return; }
      var reheap := [];
      var todo := lookup.all;
      while todo != {}
        invariant todo <= lookup.all && multiset(reheap) == multiset(lookup.all - todo)
        decreases todo
      {
        var tx :| tx in todo;
        assert lookup.all - (todo - {tx}) == (lookup.all - todo) + {tx};
        todo := todo - {tx};
        reheap := reheap + [tx];
      }
      stales := 0;
      items := Heap.Init(PriceLess, reheap);
      forall tx | tx in lookup.all ensures tx in items { assert tx in multiset(items); }
    }

    /** Whether a non-local transaction is no better than the cheapest live one. */
    method Underpriced(tx: Tx, locals: set<Address>) returns (r: bool)
      requires Valid() && Covers(items, lookup.all)
      modifies this
      ensures Valid() && Covers(items, lookup.all)
      ensures r <==> !IsLocal(tx, locals) && lookup.all != {} && forall t :: t in lookup.all ==> tx.price <= t.price
    {
      if IsLocal(tx, locals) { return false; }
      while |items| > 0 && items[0] !in lookup.all
        invariant Valid() && Covers(items, lookup.all)
        decreases |items|
      {
        ghost var before := items;
        var head;
        items, head := Heap.Pop(PriceLess, items);
        PushElements(before, items, head);
        stales := stales - 1;
      }
      if |items| == 0 {
        assert lookup.all == {};
        return false;
      }
      Heap.RootBelowAll(PriceLess, items);
      r := items[0].price >= tx.price;
    }

    /** Takes the cheapest entry off the heap. */
    method PopCheapest() returns (tx: Tx)
      requires Valid() && |items| > 0
      modifies this`items
      ensures Valid() && |items| == |old(items)| - 1
      ensures multiset(old(items)) == multiset(items) + multiset{tx}
      ensures forall x :: x in old(items) <==> x in items || x == tx
      ensures Precede([tx], old(items))
    {
      items, tx := Heap.Pop(PriceLess, items);
      PushElements(old(items), items, tx);
    }

    method PushAll(save: seq<Tx>)
      requires Valid()
      modifies this`items
      ensures Valid() && multiset(items) == multiset(old(items)) + multiset(save)
      ensures forall x :: x in items <==> x in old(items) || x in save
    {
      for i := 0 to |save|
        invariant Valid() && multiset(items) == multiset(old(items)) + multiset(save[..i])
      {
        items := Heap.Push(PriceLess, items, save[i]);
        assert save[..i + 1] == save[..i] + [save[i]];
      }
      assert save[..|save|] == save;
      assert multiset(old(items) + save) == multiset(items);
      SameElements(items, old(items) + save);
    }

    /** Takes every live non-local transaction below the threshold off the heap. */
    method Cap(threshold: int, locals: set<Address>) returns (drop: seq<Tx>)
      requires Valid() && Covers(items, lookup.all)
      modifies this
      ensures Valid() && Covers(items, lookup.all - (set tx | tx in drop))
      ensures forall tx :: tx in drop <==> tx in lookup.all && !IsLocal(tx, locals) && tx.price < threshold
    {
      drop := [];
      var save := [];
      while |items| > 0
        invariant Valid() && Covers(items + save + drop, lookup.all)
        invariant forall tx :: tx in drop ==> tx in lookup.all && !IsLocal(tx, locals) && tx.price < threshold
        invariant forall tx :: tx in save ==> IsLocal(tx, locals)
        decreases |items|
      {
        var tx := PopCheapest();
        if tx !in lookup.all {
          stales := stales - 1;
        } else if tx.price >= threshold {
          save := save + [tx];
          break;
        } else if IsLocal(tx, locals) {
          save := save + [tx];
        } else {
          drop := drop + [tx];
        }
      }
      PushAll(save);
    }

    /** Takes the `count` cheapest live non-local transactions off the heap (all, if there are fewer). */
    method Discard(count: int, locals: set<Address>) returns (drop: seq<Tx>)
      requires Valid() && Covers(items, lookup.all)
      modifies this
      ensures Valid() && Covers(items, lookup.all - (set tx | tx in drop))
      ensures |drop| <= if count > 0 then count else 0
      ensures forall tx :: tx in drop ==> tx in lookup.all && !IsLocal(tx, locals)
      ensures forall i, j :: 0 <= i < j < |drop| ==>
                drop[i].price < drop[j].price || (drop[i].price == drop[j].price && drop[i].nonce >= drop[j].nonce)
      ensures forall x, y :: x in drop && y in lookup.all && y !in drop && !IsLocal(y, locals) ==>
                x.price < y.price || (x.price == y.price && x.nonce >= y.nonce)
      ensures |drop| < count ==> forall tx :: tx in lookup.all && !IsLocal(tx, locals) ==> tx in drop
      ensures NoDuplicates(old(items)) ==> NoDuplicates(drop)
    {
      var save;
      drop, save := PopRemote(count, locals);
      PushAll(save);
    }

    /** The loop of that: what it drops, and the local transactions it has to put back. */
    method PopRemote(count: int, locals: set<Address>) returns (drop: seq<Tx>, save: seq<Tx>)
      requires Valid() && Covers(items, lookup.all)
      modifies this
      ensures Valid() && Covers(items + save + drop, lookup.all)
      ensures |drop| <= (if count > 0 then count else 0) && (|drop| < count ==> items == [])
      ensures forall tx :: tx in drop ==> tx in lookup.all && !IsLocal(tx, locals)
      ensures forall tx :: tx in save ==> IsLocal(tx, locals)
      ensures Ascending(drop) && Precede(drop, items)
      ensures NoDuplicates(old(items)) ==> NoDuplicates(drop)
    {
      drop, save := [], [];
      var left := count;
      while |items| > 0 && left > 0
        invariant Valid() && Covers(items + save + drop, lookup.all)
        invariant multiset(items) + multiset(drop) <= multiset(old(items))
        invariant left + |drop| == count && (drop != [] ==> left >= 0)
        invariant forall tx :: tx in drop ==> tx in lookup.all && !IsLocal(tx, locals)
        invariant forall tx :: tx in save ==> IsLocal(tx, locals)
        invariant Ascending(drop) && Precede(drop, items)
        decreases |items|
      {
        ghost var before := items;
        var tx := PopCheapest();
        PoppedInOrder(drop, before, items, tx);
        if tx !in lookup.all {
          stales := stales - 1;
        } else if IsLocal(tx, locals) {
          save := save + [tx];
        } else {
          drop := drop + [tx];
          left := left - 1;
        }
      }
      assert forall tx :: multiset(drop)[tx] <= multiset(old(items))[tx];
    }
  }
}
