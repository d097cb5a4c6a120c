/** The transaction pool (core/tx_pool.go): the lists of each account, the lookup of every pooled
    transaction and the price heap over it, kept in step by every operation. */
module Pooling {
  import opened Types
  import opened Nonces
  import opened Lists
  import opened PoolModel
  import opened Priced
  import opened Truncation
  import opened Admission
  import opened PoolSteps

  class TxPool {
    const config: Config
    const lookup: TxLookup
    const priced: PricedList
    var state: State
    var next: map<Address, nat>
    var pending: map<Address, TxList>
    var queue: map<Address, TxList>
    var locals: set<Address>
    var gasPrice: int

    ghost function Model(): Pool
      reads this
    {
      Pool(state, next, Normal(pending), Normal(queue), locals, gasPrice)
    }

    /** The parts fit together: one lookup, a price heap, strict and capped lists, no clashing nonces. */
    ghost predicate Shaped()
      reads this, priced
    {
      && priced.lookup == lookup
      && priced.Valid()
      && AllCapped(pending, true)
      && AllCapped(queue, false)
      && Inv(Model())
    }

    /** The same, whatever the nonces of the lists. */
    ghost predicate Formed()
      reads this, priced
    {
      && priced.lookup == lookup
      && priced.Valid()
      && AllCapped(pending, true)
      && AllCapped(queue, false)
      && Normalised(Model())
    }

    /** The pool is `was` with account `a` at `x`. */
    ghost predicate Stands(was: Pool, a: Address, x: Account)
      reads this
    {
      Model() == Put(was, a, x)
    }

    /** The lookup holds exactly the executable and the queued transactions. */
    ghost predicate Tracked()
      reads this, lookup
    {
      forall tx :: tx in lookup.all <==> Pooled(Model(), tx)
    }

    ghost predicate Valid()
      reads this, priced, lookup
    {
      Shaped() && Tracked() && Covers(priced.items, lookup.all)
    }

    constructor (config: Config, priceLimit: int, state: State)
      ensures Valid() && fresh(lookup) && fresh(priced)
      ensures this.config == config && Model() == Pool(state, map[], map[], map[], {}, priceLimit)
    {
      var l := new TxLookup();
      this.config, this.state, gasPrice := config, state, priceLimit;
      lookup := l;
      priced := new PricedList(l);
      next, pending, queue, locals := map[], map[], map[], {};
    }

    /** all.Remove followed by priced.Removed, for each transaction. */
    method DropAll(txs: set<Tx>)
      requires priced.lookup == lookup && priced.Valid()
      modifies lookup, priced
      ensures priced.Valid() && lookup.all == old(lookup.all) - txs
      ensures KeepsEntries(old(lookup.all), old(priced.items), lookup.all, priced.items)
    {
      var todo := txs;
      while todo != {}
        invariant todo <= txs && priced.Valid() && lookup.all == old(lookup.all) - (txs - todo)
        invariant KeepsEntries(old(lookup.all), old(priced.items), lookup.all, priced.items)
        decreases todo
      {
        var tx :| tx in todo;
        todo := todo - {tx};
        lookup.all := lookup.all - {tx};
        priced.Removed();
      }
    }

    /** enqueueTx: puts a transaction into its sender's queue unless one with the same nonce is better. The
        lists stay apart if its nonce is not executable already. */
    method EnqueueTx(tx: Tx) returns (inserted: bool, replaced: bool)
      requires Formed()
      modifies this`queue, lookup, priced
      ensures Formed() && Model() == Enqueue(old(Model()), tx, config.priceBump)
      ensures old(Inv(Model())) && tx.nonce !in Of(old(Model()), tx.sender).pend ==> Inv(Model())
      ensures
        var que := Of(old(Model()), tx.sender).que;
        inserted <==>
          (tx.nonce in que ==>
             && tx.price > que[tx.nonce].price
             && 100 * (tx.price + 1) > que[tx.nonce].price * (100 + config.priceBump))
      ensures replaced == (inserted && tx.nonce in Of(old(Model()), tx.sender).que)
      ensures lookup.all ==
              if !inserted then old(lookup.all)
              else if replaced then old(lookup.all) - {Of(old(Model()), tx.sender).que[tx.nonce]} + {tx}
              else old(lookup.all) + {tx}
      ensures KeepsEntries(old(lookup.all), old(priced.items), lookup.all, priced.items)
    {
      var from := tx.sender;
      var list := if from in queue then queue[from] else NewList(false);
      NormalSet(queue, from, list);
      AcceptsIff(list.items, tx, config.priceBump);
      inserted := Accepts(list.items, tx, config.priceBump);
      replaced := false;
      if !inserted { return; }
      EnqueueApart(Model(), tx, config.priceBump);
      StoreQueue(from, Insert(list, tx));
      replaced := tx.nonce in list.items;
      Track(tx, if replaced then Some(list.items[tx.nonce]) else None);
    }

    method StoreQueue(a: Address, list: TxList)
      requires Formed() && !list.strict && Capped(list)
      modifies this`queue
      ensures Formed() && queue == old(queue)[a := list]
      ensures Model() == Put(old(Model()), a, Of(old(Model()), a).(que := list.items))
    {
      NormalSet(queue, a, list);
      PutQueue(Model(), a, list.items);
      PutNormalised(Model(), a, Of(Model(), a).(que := list.items));
      queue := queue[a := list];
    }

    /** Stores an account's queue. */
    method SetQueue(a: Address, list: TxList)
      requires Shaped() && !list.strict && Capped(list)
      requires AccountOk(Of(Model(), a).(que := list.items), a)
      modifies this`queue
      ensures Shaped() && queue == old(queue)[a := list]
      ensures Model() == Put(old(Model()), a, Of(old(Model()), a).(que := list.items))
    {
      PutOf(Model(), a, Of(Model(), a).(que := list.items));
      StoreQueue(a, list);
    }

    /** Replaces one transaction by another in the lookup and the price heap. */
    method Track(tx: Tx, replaced: Option<Tx>)
      requires priced.lookup == lookup && priced.Valid()
      modifies lookup, priced
      ensures priced.Valid()
      ensures lookup.all == (if replaced.Some? then old(lookup.all) - {replaced.value} else old(lookup.all)) + {tx}
      ensures KeepsEntries(old(lookup.all), old(priced.items), lookup.all, priced.items)
    {
      if replaced.Some? {
        lookup.all := lookup.all - {replaced.value};
        priced.Removed();
      }
      if tx !in lookup.all {
        lookup.all := lookup.all + {tx};
        priced.Put(tx);
      }
    }

    method StorePending(a: Address, list: TxList)
      requires Formed() && list.strict && Capped(list)
      modifies this`pending
      ensures Formed() && pending == old(pending)[a := list]
      ensures Model() == Put(old(Model()), a, Of(old(Model()), a).(pend := list.items))
    {
      NormalSet(pending, a, list);
      PutPending(Model(), a, list.items);
      PutNormalised(Model(), a, Of(Model(), a).(pend := list.items));
      pending := pending[a := list];
    }

    method SetPending(a: Address, list: TxList)
      requires Shaped() && list.strict && Capped(list)
      requires AccountOk(Of(Model(), a).(pend := list.items), a)
      modifies this`pending
      ensures Shaped() && pending == old(pending)[a := list]
      ensures Model() == Put(old(Model()), a, Of(old(Model()), a).(pend := list.items))
    {
      PutOf(Model(), a, Of(Model(), a).(pend := list.items));
      StorePending(a, list);
    }

    method StoreNonce(a: Address, n: nat)
      requires Formed()
      modifies this`next
      ensures Formed() && Model() == Put(old(Model()), a, Of(old(Model()), a).(next := n))
    {
      PutNext(Model(), a, n);
      PutNormalised(Model(), a, Of(Model(), a).(next := n));
      next := SetNext(next, a, n, state.Nonce(a));
    }

    /** pendingState.SetNonce */
    method SetNonce(a: Address, n: nat)
      requires Shaped()
      modifies this`next
      ensures Shaped() && Model() == Put(old(Model()), a, Of(old(Model()), a).(next := n))
    {
      PutOf(Model(), a, Of(Model(), a).(next := n));
      StoreNonce(a, n);
    }

    /** Deletes empty lists of an account, which the model does not see. */
    method DeleteEmpty(a: Address)
      requires Shaped()
      modifies this`pending, this`queue
      ensures Shaped() && Model() == old(Model())
      ensures (a in pending ==> pending[a].items != map[]) && (a in queue ==> queue[a].items != map[])
      ensures OnlyAt(old(pending), pending, a) && OnlyAt(old(queue), queue, a)
    {
      if a in pending && pending[a].items == map[] {
        NormalDelete(pending, a);
        pending := pending - {a};
      }
      if a in queue && queue[a].items == map[] {
        NormalDelete(queue, a);
        queue := queue - {a};
      }
    }

    /** Lowers the virtual nonce to one that is no longer executable. */
    method LowerNonce(a: Address, n: nat, ghost was: Pool, ghost x: Account)
      requires Shaped() && Stands(was, a, x)
      modifies this`next
      ensures Shaped() && Stands(was, a, x.(next := if x.next > n then n else x.next))
    {
      PutAgain(was, Model(), a, x, x.(next := if x.next > n then n else x.next));
      if (if a in next then next[a] else state.Nonce(a)) > n {
        SetNonce(a, n);
      }
    }

    /** promoteTx: adds a transaction to the executable list, unless one with the same nonce is better. The
        lists stay apart if its nonce is not queued any more. */
    method PromoteTx(a: Address, tx: Tx) returns (inserted: bool)
      requires Formed()
      modifies this`pending, this`next, lookup, priced
      ensures Formed()
      ensures
        var pend := Of(old(Model()), a).pend;
        inserted <==>
          (tx.nonce in pend ==>
             && tx.price > pend[tx.nonce].price
             && 100 * (tx.price + 1) > pend[tx.nonce].price * (100 + config.priceBump))
      ensures old(Inv(Model())) && tx.sender == a && tx.nonce !in Of(old(Model()), a).que ==> Inv(Model())
      ensures Model() == if inserted then WithExecutable(old(Model()), a, tx) else old(Model())
      ensures
        var x := Of(old(Model()), a);
        lookup.all ==
          if !inserted then old(lookup.all) - {tx}
          else (if tx.nonce in x.pend then old(lookup.all) - {x.pend[tx.nonce]} else old(lookup.all)) + {tx}
      ensures KeepsEntries(old(lookup.all), old(priced.items), lookup.all, priced.items)
    {
      var list := if a in pending then pending[a] else NewList(true);
      NormalSet(pending, a, list);
      AcceptsIff(list.items, tx, config.priceBump);
      inserted := Accepts(list.items, tx, config.priceBump);
      if !inserted {
        DropAll({tx});
        return;
      }
      PromoteApart(Model(), a, tx);
      Include(a, list, tx);
    }

    /** Stores an executable list with a transaction more. */
    method Include(a: Address, list: TxList, tx: Tx)
      requires Formed() && list.strict && Capped(list) && list.items == Of(Model(), a).pend
      modifies this`pending, this`next, lookup, priced
      ensures Formed() && Model() == WithExecutable(old(Model()), a, tx)
      ensures lookup.all ==
          (if tx.nonce in list.items then old(lookup.all) - {list.items[tx.nonce]} else old(lookup.all)) + {tx}
      ensures KeepsEntries(old(lookup.all), old(priced.items), lookup.all, priced.items)
    {
      IncludeInList(a, list, tx);
      Track(tx, if tx.nonce in list.items then Some(list.items[tx.nonce]) else None);
    }

    method IncludeInList(a: Address, list: TxList, tx: Tx)
      requires Formed() && list.strict && Capped(list) && list.items == Of(Model(), a).pend
      modifies this`pending, this`next
      ensures Formed() && Model() == WithExecutable(old(Model()), a, tx)
    {
      ghost var p, x := Model(), Of(Model(), a).(pend := list.items[tx.nonce := tx]);
      StorePending(a, Insert(list, tx));
      PutAgain(p, Model(), a, x, x.(next := tx.nonce + 1));
      StoreNonce(a, tx.nonce + 1);
    }

    /** Replaces an account's queue by a part of it and drops the rest from the pool. */
    method ShrinkQueue(a: Address, list: TxList, dropped: set<Tx>)
      requires Shaped() && Tracked() && a in queue
      requires !list.strict && Capped(list) && Sub(list.items, queue[a].items)
      requires forall tx :: tx in dropped <==>
                 tx.nonce in queue[a].items && queue[a].items[tx.nonce] == tx && tx.nonce !in list.items
      modifies this`queue, lookup, priced
      ensures Shaped() && Tracked() && queue == old(queue)[a := list]
      ensures Model() == Put(old(Model()), a, Of(old(Model()), a).(que := list.items))
      ensures KeepsEntries(old(lookup.all), old(priced.items), lookup.all, priced.items)
    {
      NormalSet(queue, a, list);
      QueueShrinks(Model(), a, list.items, dropped);
      SetQueue(a, list);
      DropAll(dropped);
    }

    /** Moves the executable run at the front of the queue; the "older was better" branch cannot be taken. */
    method PromoteReady(a: Address)
      requires Shaped() && Tracked() && a in queue
      modifies this`pending, this`queue, this`next, lookup, priced
      ensures Shaped() && lookup.all == old(lookup.all) && queue.Keys == old(queue).Keys
      ensures Stands(old(Model()), a, MoveReady(Of(old(Model()), a)))
      ensures KeepsEntries(old(lookup.all), old(priced.items), lookup.all, priced.items)
    {
      var list := queue[a];
      ghost var was := Model();
      ghost var x := Of(was, a);
      NormalSet(queue, a, list);
      var start := if a in next then next[a] else state.Nonce(a);
      if list.items == map[] || Lowest(list.items) > start {
        NothingReady(x);
        PutSame(was, a);
        return;
      }
      MoveFront(a, list, was, x);
    }

    method MoveFront(a: Address, list: TxList, ghost was: Pool, ghost x: Account)
      requires Shaped() && Tracked() && a in queue && queue[a] == list && was == Model() && x == Of(was, a)
      requires list.items == x.que != map[] && Lowest(x.que) <= x.next
      modifies this`pending, this`queue, this`next, lookup, priced
      ensures Shaped() && lookup.all == old(lookup.all) && queue.Keys == old(queue).Keys
      ensures Stands(was, a, MoveReady(x))
      ensures KeepsEntries(old(lookup.all), old(priced.items), lookup.all, priced.items)
    {
      var low, e := Detach(a, list, was, x);
      MoveRun(a, list.items, was, x, e, low);
    }

    /** Takes the run off the queue. */
    method Detach(a: Address, list: TxList, ghost was: Pool, ghost x: Account) returns (low: nat, e: nat)
      requires Shaped() && Tracked() && a in queue && queue[a] == list && was == Model() && x == Of(was, a)
      requires list.items == x.que != map[] && Lowest(x.que) <= x.next
      modifies this`queue
      ensures Shaped() && queue.Keys == old(queue).Keys && low < e && forall k :: low <= k < e ==> k in x.que
      ensures AccountOk(x, a) && TxSet(x.que) <= lookup.all
      ensures Stands(was, a, Moving(x, e, low, low)) && Moving(x, e, low, e) == MoveReady(x)
    {
      low := Lowest(list.items);
      e := RunEnd(list.items, low);
      ReadyRun(was, a, x, low, e, lookup.all);
      SetQueue(a, list.(items := AtLeast(list.items, e)));
    }

    method MoveRun(a: Address, items: map<nat, Tx>, ghost was: Pool, ghost x: Account, e: nat, low: nat)
      requires Shaped() && low <= e && items == x.que && forall k :: low <= k < e ==> k in items
      requires AccountOk(x, a) && TxSet(x.que) <= lookup.all
      requires Stands(was, a, Moving(x, e, low, low))
      modifies this`pending, this`next, lookup, priced
      ensures Shaped() && lookup.all == old(lookup.all)
      ensures Stands(was, a, Moving(x, e, low, e))
      ensures KeepsEntries(old(lookup.all), old(priced.items), lookup.all, priced.items)
    {
      var n := low;
      ghost var now := Put(was, a, Moving(x, e, low, low));
      while n < e
        invariant low <= n <= e && Shaped() && lookup.all == old(lookup.all)
        invariant Model() == now && now == Put(was, a, Moving(x, e, low, n))
        invariant KeepsEntries(old(lookup.all), old(priced.items), lookup.all, priced.items)
      {
        now, n := MoveNext(a, items, was, x, e, low, n);
      }
    }

    method MoveNext(a: Address, items: map<nat, Tx>, ghost was: Pool, ghost x: Account, ghost e: nat, ghost low: nat,
                    n: nat)
      returns (ghost now: Pool, after: nat)
      requires Shaped() && low <= n < e && items == x.que && n in items
      requires AccountOk(x, a) && TxSet(x.que) <= lookup.all && Stands(was, a, Moving(x, e, low, n))
      modifies this`pending, this`next, lookup, priced
      ensures Shaped() && lookup.all == old(lookup.all)
      ensures after == n + 1 && Model() == now && now == Put(was, a, Moving(x, e, low, after))
      ensures KeepsEntries(old(lookup.all), old(priced.items), lookup.all, priced.items)
    {
      assert items[n] in TxSet(x.que);
      var _ := PromoteNext(a, items[n], was, x, e, low, n);
      now, after := Model(), n + 1;
    }

    /** One step of the move: the next nonce of the run goes across. No older transaction is better, since
        none has its nonce. */
    method PromoteNext(a: Address, tx: Tx, ghost was: Pool, ghost x: Account, ghost e: nat, ghost low: nat,
                       ghost n: nat)
      returns (inserted: bool)
      requires Shaped() && low <= n < e && n in x.que && x.que[n] == tx
      requires AccountOk(x, a) && tx in lookup.all
      requires Stands(was, a, Moving(x, e, low, n))
      modifies this`pending, this`next, lookup, priced
      ensures Shaped() && lookup.all == old(lookup.all)
      ensures inserted && Stands(was, a, Moving(x, e, low, n + 1))
      ensures KeepsEntries(old(lookup.all), old(priced.items), lookup.all, priced.items)
    {
      ghost var y := Moving(x, e, low, n);
      MovingReads(was, Model(), a, x, e, low, n, y, tx);
      assert lookup.all + {tx} == lookup.all;
      inserted := PromoteTx(a, tx);
    }

    /** Drops the queued transactions whose nonces the state has passed. */
    method DropOldQueued(a: Address)
      requires Shaped() && Tracked() && a in queue
      modifies this`queue, lookup, priced
      ensures Shaped() && Tracked() && a in queue
      ensures Stands(old(Model()), a, Of(old(Model()), a).(que := AtLeast(Of(old(Model()), a).que, state.Nonce(a))))
      ensures KeepsEntries(old(lookup.all), old(priced.items), lookup.all, priced.items)
    {
      var list := queue[a];
      NormalSet(queue, a, list);
      assert AccountOk(Of(Model(), a), a);
      DroppedOld(list.items, state.Nonce(a));
      ShrinkQueue(a, list.(items := AtLeast(list.items, state.Nonce(a))), TxSet(Below(list.items, state.Nonce(a))));
    }

    /** Drops the queued transactions the account cannot pay for or the block cannot hold. */
    method DropUnpayableQueued(a: Address)
      requires Shaped() && Tracked() && a in queue
      modifies this`queue, lookup, priced
      ensures Shaped() && Tracked() && a in queue
      ensures
        var x := Of(old(Model()), a);
        Stands(old(Model()), a, x.(que := Scan(false, x.que, state.Balance(a), state.maxGas).kept))
      ensures KeepsEntries(old(lookup.all), old(priced.items), lookup.all, priced.items)
    {
      var list := queue[a];
      NormalSet(queue, a, list);
      assert AccountOk(Of(Model(), a), a);
      DroppedUnpayable(list.items, state.Balance(a), state.maxGas);
      FilteredCapped(list, state.Balance(a), state.maxGas);
      ShrinkQueue(a, Filtered(list, state.Balance(a), state.maxGas),
                  TxSet(Scan(false, list.items, state.Balance(a), state.maxGas).removed));
    }

    /** Drops what exceeds the per-account limit, unless the account is local. */
    method CapQueue(a: Address)
      requires Shaped() && Tracked() && a in queue
      modifies this`queue, lookup, priced
      ensures Shaped() && Tracked() && a in queue
      ensures
        var x := Of(old(Model()), a);
        Stands(old(Model()), a, x.(que := CapTo(x.que, QueueCap(config, old(Model()), a))))
      ensures KeepsEntries(old(lookup.all), old(priced.items), lookup.all, priced.items)
    {
      if a in locals {
        PutSame(Model(), a);
        return;
      }
      var list := queue[a];
      NormalSet(queue, a, list);
      assert AccountOk(Of(Model(), a), a);
      DroppedExcess(list.items, config.accountQueue);
      ShrinkQueue(a, list.(items := Keep(list.items, config.accountQueue)),
                  set tx | tx in Excess(list.items, config.accountQueue));
    }

    /** promoteExecutables for one account. */
    method PromoteAccount(a: Address)
      requires Shaped() && Tracked()
      modifies this`pending, this`queue, this`next, lookup, priced
      ensures Shaped() && Tracked() && Model() == PromoteAt(config, old(Model()), a)
      ensures KeepsEntries(old(lookup.all), old(priced.items), lookup.all, priced.items)
      ensures a in queue ==> queue[a].items != map[]
    {
      if a !in queue { return; }
      PromoteQueued(a);
      DeleteEmpty(a);
    }

    method PromoteQueued(a: Address)
      requires Shaped() && Tracked() && a in queue
      modifies this`pending, this`queue, this`next, lookup, priced
      ensures Shaped() && Tracked() && Model() == PromoteAt(config, old(Model()), a)
      ensures KeepsEntries(old(lookup.all), old(priced.items), lookup.all, priced.items)
    {
      ghost var p := Model();
      ghost var x := Of(p, a);
      ghost var x1 := x.(que := AtLeast(x.que, state.Nonce(a)));
      ghost var x2 := x.(que := Payable(x.que, state.Nonce(a), state.Balance(a), state.maxGas));
      DropOldQueued(a);
      PutAgain(p, Model(), a, x1, x2);
      DropUnpayableQueued(a);
      PromoteAndCap(a, p, x2);
      if a !in p.queue { EmptyQueue(p, a, QueueCap(config, p, a)); }
    }

    method PromoteAndCap(a: Address, ghost p: Pool, ghost x: Account)
      requires Shaped() && Tracked() && a in queue && Stands(p, a, x) && p.locals == locals
      modifies this`pending, this`queue, this`next, lookup, priced
      ensures Shaped() && Tracked()
      ensures Stands(p, a, MoveReady(x).(que := CapTo(MoveReady(x).que, QueueCap(config, p, a))))
      ensures KeepsEntries(old(lookup.all), old(priced.items), lookup.all, priced.items)
    {
      ghost var y := MoveReady(x).(que := CapTo(MoveReady(x).que, QueueCap(config, p, a)));
      MoveReadyPooled(Model(), a);
      PutAgain(p, Model(), a, x, MoveReady(x));
      PromoteReady(a);
      PutAgain(p, Model(), a, MoveReady(x), y);
      CapQueue(a);
    }

    /** Queues transactions that left the executable list; none is lost, since none of their nonces is queued. */
    method EnqueueAll(a: Address, moved: map<nat, Tx>, ghost was: Pool, ghost x: Account)
      requires Shaped() && Stands(was, a, x) && Queueable(x, moved, a) && TxSet(moved) <= lookup.all
      modifies this`queue, lookup, priced
      ensures Shaped() && Stands(was, a, x.(que := x.que + moved)) && lookup.all == old(lookup.all)
      ensures KeepsEntries(old(lookup.all), old(priced.items), lookup.all, priced.items)
    {
      var rest := moved;
      ghost var y := x;
      while rest != map[]
        invariant Shaped() && Stands(was, a, y) && InTransit(x, moved, y, rest, a)
        invariant lookup.all == old(lookup.all)
        invariant KeepsEntries(old(lookup.all), old(priced.items), lookup.all, priced.items)
        decreases |rest|
      {
        var n :| n in rest;
        QueueingStep(x, moved, y, rest, n, a);
        var _, _, z := EnqueueNext(a, rest[n], was, y);
        y := z;
        rest := Drop(rest, n);
      }
      QueueingEnds(x, moved, y, a);
    }

    /** One step of the way back: no queued transaction is better, nor lost. */
    method EnqueueNext(a: Address, tx: Tx, ghost was: Pool, ghost x: Account)
      returns (inserted: bool, replaced: bool, ghost y: Account)
      requires Shaped() && Stands(was, a, x)
      requires tx.sender == a && tx.nonce !in x.pend && tx.nonce !in x.que && tx in lookup.all
      modifies this`queue, lookup, priced
      ensures inserted && !replaced && y == x.(que := x.que[tx.nonce := tx])
      ensures Shaped() && Stands(was, a, y) && lookup.all == old(lookup.all)
      ensures KeepsEntries(old(lookup.all), old(priced.items), lookup.all, priced.items)
    {
      y := x.(que := x.que[tx.nonce := tx]);
      PutAgain(was, Model(), a, x, y);
      inserted, replaced := EnqueueTx(tx);
    }

    /** removeTx: takes a transaction out of the pool and queues the ones it made unexecutable. */
    method RemoveTx(tx: Tx, outOfBound: bool)
      requires Shaped() && Tracked()
      modifies this`pending, this`queue, this`next, lookup, priced
      ensures Shaped() && Tracked() && Model() == PoolModel.RemoveTx(old(Model()), tx)
      ensures lookup.all == old(lookup.all) - {tx}
      ensures KeepsEntries(old(lookup.all), old(priced.items), lookup.all, priced.items)
    {
      RemoveTracked(Model(), tx, lookup.all);
      if tx !in lookup.all { return; }
      lookup.all := lookup.all - {tx};
      if outOfBound { priced.Removed(); }
      Unlist(tx);
    }

    /** Takes a transaction out of the list that holds it. */
    method Unlist(tx: Tx)
      requires Shaped() && Pooled(Model(), tx)
      requires TxSet(Of(Model(), tx.sender).pend) - {tx} <= lookup.all
      modifies this`pending, this`queue, this`next, lookup, priced
      ensures Shaped() && Stands(old(Model()), tx.sender, Remove(Of(old(Model()), tx.sender), tx.nonce))
      ensures lookup.all == old(lookup.all)
      ensures KeepsEntries(old(lookup.all), old(priced.items), lookup.all, priced.items)
    {
      assert AccountOk(Of(Model(), tx.sender), tx.sender);
      if tx.sender in pending && tx.nonce in pending[tx.sender].items {
        RemovePending(tx);
      } else {
        RemoveQueued(tx);
      }
    }

    method RemovePending(tx: Tx)
      requires Shaped() && tx.sender in pending && tx.nonce in pending[tx.sender].items
      requires TxSet(Of(Model(), tx.sender).pend) - {Of(Model(), tx.sender).pend[tx.nonce]} <= lookup.all
      modifies this`pending, this`queue, this`next, lookup, priced
      ensures Shaped() && Stands(old(Model()), tx.sender, Remove(Of(old(Model()), tx.sender), tx.nonce))
      ensures lookup.all == old(lookup.all)
      ensures KeepsEntries(old(lookup.all), old(priced.items), lookup.all, priced.items)
    {
      var a, nonce := tx.sender, tx.nonce;
      var list := pending[a];
      ghost var p := Model();
      ghost var x := Of(p, a);
      NormalSet(pending, a, list);
      assert AccountOk(x, a);
      InvalidsQueueable(x, a, nonce);
      var r := RemoveNonce(true, list.items, nonce);
      ghost var x1 := x.(pend := r.kept);
      SetPending(a, list.(items := r.kept));
      EnqueueAll(a, r.invalids, p, x1);
      LowerNonce(a, nonce, p, x1.(que := x1.que + r.invalids));
      DeleteEmpty(a);
    }

    method RemoveQueued(tx: Tx)
      requires Shaped() && tx.nonce !in Of(Model(), tx.sender).pend && tx.sender in queue
      modifies this`pending, this`queue
      ensures Shaped() && Stands(old(Model()), tx.sender, Remove(Of(old(Model()), tx.sender), tx.nonce))
    {
      var a := tx.sender;
      var list := queue[a];
      NormalSet(queue, a, list);
      assert AccountOk(Of(Model(), a), a);
      SetQueue(a, list.(items := Drop(list.items, tx.nonce)));
      DeleteEmpty(a);
    }

    /** demoteUnexecutables for one account. */
    method DemoteAccount(a: Address)
      requires Shaped() && Tracked()
      modifies this`pending, this`queue, lookup, priced
      ensures Shaped() && Tracked() && Model() == DemoteAt(old(Model()), a)
      ensures OnlyAt(old(pending), pending, a) && (a in pending ==> pending[a].items != map[])
      ensures KeepsEntries(old(lookup.all), old(priced.items), lookup.all, priced.items)
    {
      if a !in pending { return; }
      ghost var p := Model();
      ghost var x := Of(p, a);
      ghost var x1 := x.(pend := AtLeast(x.pend, state.Nonce(a)));
      ghost var x2 := Unpay(x1, state.Balance(a), state.maxGas);
      DropOldPending(a);
      PutAgain(p, Model(), a, x1, x2);
      DropUnpayablePending(a);
      PutAgain(p, Model(), a, x2, CloseGap(x2, state.Nonce(a)));
      PostponeGapped(a);
      DeleteEmpty(a);
      if a !in p.pending { DemoteNothing(p, a); }
    }

    method DropOldPending(a: Address)
      requires Shaped() && Tracked() && a in pending
      modifies this`pending, lookup, priced
      ensures Shaped() && Tracked() && a in pending
      ensures Stands(old(Model()), a, Of(old(Model()), a).(pend := AtLeast(Of(old(Model()), a).pend, state.Nonce(a))))
      ensures OnlyAt(old(pending), pending, a)
      ensures KeepsEntries(old(lookup.all), old(priced.items), lookup.all, priced.items)
    {
      var list := pending[a];
      ghost var p := Model();
      ghost var x := Of(p, a);
      NormalSet(pending, a, list);
      DemoteOld(p, a, lookup.all);
      OnlyHere(pending, a, list.(items := AtLeast(list.items, state.Nonce(a))));
      SetPending(a, list.(items := AtLeast(list.items, state.Nonce(a))));
      DropAll(TxSet(Below(list.items, state.Nonce(a))));
    }

    method DropUnpayablePending(a: Address)
      requires Shaped() && Tracked() && a in pending
      modifies this`pending, this`queue, lookup, priced
      ensures Shaped() && Tracked() && a in pending
      ensures Stands(old(Model()), a, Unpay(Of(old(Model()), a), state.Balance(a), state.maxGas))
      ensures OnlyAt(old(pending), pending, a)
      ensures KeepsEntries(old(lookup.all), old(priced.items), lookup.all, priced.items)
    {
      ghost var p := Model();
      ghost var x := Of(p, a);
      DemoteUnpayable(p, a, lookup.all);
      ghost var r := Scan(true, x.pend, state.Balance(a), state.maxGas);
      var invalids := KeepPayable(a, p, x, r);
      ghost var all1, items1 := lookup.all, priced.items;
      EnqueueAll(a, invalids, p, x.(pend := r.kept));
      EntriesChain(old(lookup.all), old(priced.items), all1, items1, lookup.all, priced.items);
    }

    /** The first half of that: drops the unpayable executable transactions and hands back what followed them. */
    method KeepPayable(a: Address, ghost p: Pool, ghost x: Account, ghost r: Sifted) returns (invalids: map<nat, Tx>)
      requires Shaped() && a in pending && p == Model() && x == Of(p, a)
      requires r == Scan(true, x.pend, state.Balance(a), state.maxGas) && AccountOk(x.(pend := r.kept), a)
      modifies this`pending, lookup, priced
      ensures Shaped() && a in pending && OnlyAt(old(pending), pending, a)
      ensures invalids == r.invalids && Stands(p, a, x.(pend := r.kept))
      ensures lookup.all == old(lookup.all) - TxSet(r.removed)
      ensures KeepsEntries(old(lookup.all), old(priced.items), lookup.all, priced.items)
    {
      var list := pending[a];
      NormalSet(pending, a, list);
      var sifted := Scan(true, list.items, state.Balance(a), state.maxGas);
      assert sifted == r;
      FilteredCapped(list, state.Balance(a), state.maxGas);
      OnlyHere(pending, a, Filtered(list, state.Balance(a), state.maxGas));
      SetPending(a, Filtered(list, state.Balance(a), state.maxGas));
      DropAll(TxSet(sifted.removed));
      return sifted.invalids;
    }

    method PostponeGapped(a: Address)
      requires Shaped() && Tracked() && a in pending
      modifies this`pending, this`queue, lookup, priced
      ensures Shaped() && Tracked() && a in pending
      ensures Stands(old(Model()), a, CloseGap(Of(old(Model()), a), state.Nonce(a)))
      ensures OnlyAt(old(pending), pending, a)
      ensures KeepsEntries(old(lookup.all), old(priced.items), lookup.all, priced.items)
    {
      var list := pending[a];
      ghost var p := Model();
      ghost var x := Of(p, a);
      NormalSet(pending, a, list);
      if list.items != map[] && state.Nonce(a) !in list.items {
        DemoteGapped(p, a, lookup.all);
        OnlyHere(pending, a, list.(items := map[]));
        SetPending(a, list.(items := map[]));
        EnqueueAll(a, list.items, p, x.(pend := map[]));
      } else {
        PutSame(p, a);
      }
    }

    /** Drops an account's highest executable transaction. */
    method CutLastPending(a: Address)
      requires Shaped() && Tracked() && Of(Model(), a).pend != map[]
      modifies this`pending, this`next, lookup, priced
      ensures Shaped() && Tracked() && Model() == Put(old(Model()), a, CutLast(Of(old(Model()), a)))
      ensures KeepsEntries(old(lookup.all), old(priced.items), lookup.all, priced.items)
    {
      var list := pending[a];
      ghost var p := Model();
      ghost var x := Of(p, a);
      NormalSet(pending, a, list);
      var h := Highest(list.items);
      CutLeaves(p, a, lookup.all);
      SetPending(a, list.(items := Drop(list.items, h)));
      DropAll({list.items[h]});
      LowerNonce(a, h, p, x.(pend := Drop(x.pend, h)));
    }

    /** Shortens each of the given accounts by one transaction. */
    method Sweep(offs: seq<Address>, ghost p0: Pool, ghost len: nat)
      requires Shaped() && Tracked() && len > 0 && Sweeping(p0, Model(), Model(), offs, 0, len)
      modifies this`pending, this`next, lookup, priced
      ensures Shaped() && Tracked() && Sweeping(p0, old(Model()), Model(), offs, |offs|, len)
      ensures Total(Model().pending) == Total(old(Model()).pending) - |offs| && |offs| <= |Cut(p0, Model())|
      ensures KeepsEntries(old(lookup.all), old(priced.items), lookup.all, priced.items)
    {
      for i := 0 to |offs|
        invariant Shaped() && Tracked() && Sweeping(p0, old(Model()), Model(), offs, i, len)
        invariant Total(Model().pending) == Total(old(Model()).pending) - i
        invariant KeepsEntries(old(lookup.all), old(priced.items), lookup.all, priced.items)
      {
        ghost var p := Model();
        SweepHasMore(p0, old(Model()), p, offs, i, len);
        CutLastPending(offs[i]);
        SweepStep(p0, old(Model()), p, Model(), offs, i, len);
      }
      SweptCut(p0, old(Model()), Model(), offs, len);
    }

    /** Shortens all offenders but the newest until they are as short as it or the total is within the limit. */
    method Equalise(offs: seq<Address>, ghost spam: set<Address>, ghost p0: Pool, total0: nat) returns (total: nat)
      requires Shaped() && Tracked() && |offs| > 1 && total0 == Total(Model().pending)
      requires Equalising(p0, Model(), offs, spam, config.accountSlots) && InTime(p0, Model(), config.globalSlots)
      modifies this`pending, this`next, lookup, priced
      ensures Shaped() && Tracked() && total == Total(Model().pending)
      ensures Equalising(p0, Model(), offs, spam, config.accountSlots) && InTime(p0, Model(), config.globalSlots)
      ensures total <= config.globalSlots || Level(Model(), offs)
      ensures KeepsEntries(old(lookup.all), old(priced.items), lookup.all, priced.items)
    {
      total := total0;
      var n := |offs|;
      var threshold := ListLen(offs[n - 1]);
      while true
        invariant Shaped() && Tracked() && total == Total(Model().pending)
        invariant Equalising(p0, Model(), offs, spam, config.accountSlots) && InTime(p0, Model(), config.globalSlots)
        invariant threshold == Len(Model(), offs[n - 1])
        invariant KeepsEntries(old(lookup.all), old(priced.items), lookup.all, priced.items)
        decreases Len(Model(), offs[0])
      {
        Equalised(p0, Model(), offs, spam, config.accountSlots);
        var len := ListLen(offs[n - 2]);
        if total <= config.globalSlots || len <= threshold { break; }
        total := SweepOlder(offs, spam, p0, total, len);
      }
    }

    method SweepOlder(offs: seq<Address>, ghost spam: set<Address>, ghost p0: Pool, total0: nat, ghost len: nat)
      returns (total: nat)
      requires Shaped() && Tracked() && |offs| > 1 && total0 == Total(Model().pending) > config.globalSlots
      requires Equalising(p0, Model(), offs, spam, config.accountSlots)
      requires len == Len(Model(), offs[|offs| - 2]) > Len(Model(), offs[|offs| - 1])
      modifies this`pending, this`next, lookup, priced
      ensures Shaped() && Tracked() && total == Total(Model().pending)
      ensures Equalising(p0, Model(), offs, spam, config.accountSlots) && InTime(p0, Model(), config.globalSlots)
      ensures Len(Model(), offs[0]) == Len(old(Model()), offs[0]) - 1
      ensures Len(Model(), offs[|offs| - 1]) == Len(old(Model()), offs[|offs| - 1])
      ensures KeepsEntries(old(lookup.all), old(priced.items), lookup.all, priced.items)
    {
      ghost var p1 := Model();
      var older := offs[..|offs| - 1];
      OlderReady(p0, p1, offs, spam, config.accountSlots, len);
      total := SweepTogether(older, p0, p1, len, total0);
      OlderSwept(p0, p1, Model(), offs, spam, config.accountSlots, len);
    }

    function QueueSize(a: Address): (n: nat)
      reads this
      ensures n == |Of(Model(), a).que|
    {
      if a in queue then |queue[a].items| else 0
    }

    function ListLen(a: Address): (n: nat)
      reads this
      ensures n == Len(Model(), a)
    {
      if a in pending then |pending[a].items| else 0
    }

    /** The remote accounts over their slots. */
    method Spammers() returns (spammers: set<Address>)
      ensures forall a :: a in spammers <==> Spammer(Model(), a, config.accountSlots)
    {
      spammers := set a | a in pending && a !in locals && |pending[a].items| > config.accountSlots;
      assert forall a :: ListLen(a) == Len(Model(), a);
    }

    /** The spam order: takes offenders longest first and equalises them, until the total fits or none is left. */
    method EqualiseOffenders(ghost p0: Pool, total0: nat)
      returns (offs: seq<Address>, total: nat, ghost spam: set<Address>)
      requires Shaped() && Tracked() && p0 == Model() && total0 == Total(Model().pending)
      modifies this`pending, this`next, lookup, priced
      ensures Shaped() && Tracked() && total == Total(Model().pending)
      ensures Equalising(p0, Model(), offs, spam, config.accountSlots) && InTime(p0, Model(), config.globalSlots)
      ensures total <= config.globalSlots || (spam == {} && Level(Model(), offs))
      ensures KeepsEntries(old(lookup.all), old(priced.items), lookup.all, priced.items)
    {
      var spammers := Spammers();
      offs, total, spam := [], total0, spammers;
      NoOffenders(p0, spam, config.accountSlots);
      while total > config.globalSlots && spammers != {}
        invariant Shaped() && Tracked() && total == Total(Model().pending) && spam == spammers
        invariant Equalising(p0, Model(), offs, spam, config.accountSlots) && InTime(p0, Model(), config.globalSlots)
        invariant total <= config.globalSlots || Level(Model(), offs)
        invariant KeepsEntries(old(lookup.all), old(priced.items), lookup.all, priced.items)
        decreases spammers
      {
        var o;
        o, total := TakeOne(spammers, offs, p0, total);
        spammers := spammers - {o};
        spam := spammers;
        offs := offs + [o];
      }
    }

    /** Takes the longest offender and equalises the ones before it with it. */
    method TakeOne(spammers: set<Address>, offs: seq<Address>, ghost p0: Pool, total0: nat)
      returns (o: Address, total: nat)
      requires Shaped() && Tracked() && total0 == Total(Model().pending) && spammers != {}
      requires Equalising(p0, Model(), offs, spammers, config.accountSlots) && Level(Model(), offs)
      requires InTime(p0, Model(), config.globalSlots)
      modifies this`pending, this`next, lookup, priced
      ensures Shaped() && Tracked() && total == Total(Model().pending) && o in spammers
      ensures Equalising(p0, Model(), offs + [o], spammers - {o}, config.accountSlots)
      ensures InTime(p0, Model(), config.globalSlots)
      ensures total <= config.globalSlots || Level(Model(), offs + [o])
      ensures KeepsEntries(old(lookup.all), old(priced.items), lookup.all, priced.items)
    {
      o := NextOffender(spammers);
      total := total0;
      TakeOffender(p0, Model(), offs, spammers, config.accountSlots, o);
      if offs != [] {
        total := Equalise(offs + [o], spammers - {o}, p0, total);
      }
    }

    /** spammers.Pop: an account with the most executable transactions. */
    method NextOffender(spammers: set<Address>) returns (o: Address)
      requires spammers != {}
      ensures o in spammers && forall b :: b in spammers ==> Len(Model(), b) <= Len(Model(), o)
    {
      LongestExists(Model(), spammers);
      assert exists o :: o in spammers && forall b :: b in spammers ==> ListLen(b) <= ListLen(o);
      o :| o in spammers && forall b :: b in spammers ==> ListLen(b) <= ListLen(o);
    }

    /** Shortens all offenders together down to the guaranteed slots or until the total fits. */
    method LevelOffenders(offs: seq<Address>, ghost p0: Pool, total0: nat) returns (total: nat)
      requires Shaped() && Tracked() && offs != [] && total0 == Total(Model().pending)
      requires Levelling(p0, Model(), offs, config.accountSlots) && InTime(p0, Model(), config.globalSlots)
      modifies this`pending, this`next, lookup, priced
      ensures Shaped() && Tracked() && total == Total(Model().pending)
      ensures Levelling(p0, Model(), offs, config.accountSlots) && InTime(p0, Model(), config.globalSlots)
      ensures total <= config.globalSlots || Len(Model(), offs[0]) == config.accountSlots
      ensures KeepsEntries(old(lookup.all), old(priced.items), lookup.all, priced.items)
    {
      total := total0;
      while total > config.globalSlots && ListLen(offs[|offs| - 1]) > config.accountSlots
        invariant Shaped() && Tracked() && total == Total(Model().pending)
        invariant Levelling(p0, Model(), offs, config.accountSlots) && InTime(p0, Model(), config.globalSlots)
        invariant KeepsEntries(old(lookup.all), old(priced.items), lookup.all, priced.items)
        decreases Len(Model(), offs[0])
      {
        total := SweepLevel(offs, p0, total);
      }
    }

    method SweepLevel(offs: seq<Address>, ghost p0: Pool, total0: nat) returns (total: nat)
      requires Shaped() && Tracked() && offs != [] && total0 == Total(Model().pending) > config.globalSlots
      requires Levelling(p0, Model(), offs, config.accountSlots) && Len(Model(), offs[|offs| - 1]) > config.accountSlots
      modifies this`pending, this`next, lookup, priced
      ensures Shaped() && Tracked() && total == Total(Model().pending)
      ensures Levelling(p0, Model(), offs, config.accountSlots) && InTime(p0, Model(), config.globalSlots)
      ensures Len(Model(), offs[0]) < Len(old(Model()), offs[0])
      ensures KeepsEntries(old(lookup.all), old(priced.items), lookup.all, priced.items)
    {
      ghost var p1, len := Model(), Len(Model(), offs[0]);
      LevelReady(p0, p1, offs, config.accountSlots);
      total := SweepTogether(offs, p0, p1, len, total0);
      SweepKeepsLevelling(p0, p1, Model(), offs, config.accountSlots, len);
    }

    method SweepTogether(offs: seq<Address>, ghost p0: Pool, ghost p1: Pool, ghost len: nat, total0: nat)
      returns (total: nat)
      requires Shaped() && Tracked() && p1 == Model() && total0 == Total(p1.pending)
      requires offs != [] && len > 0 && Sweeping(p0, p1, p1, offs, 0, len)
      modifies this`pending, this`next, lookup, priced
      ensures Shaped() && Tracked() && total == Total(Model().pending)
      ensures Sweeping(p0, p1, Model(), offs, |offs|, len) && total + |Cut(p0, Model())| >= total0
      ensures KeepsEntries(old(lookup.all), old(priced.items), lookup.all, priced.items)
    {
      Sweep(offs, p0, len);
      total := total0 - |offs|;
    }

    /** Equalises the allowances of the heaviest remote accounts when the executable total is over its limit. */
    method TruncatePending()
      requires Shaped() && Tracked()
      modifies this`pending, this`next, lookup, priced
      ensures Shaped() && Tracked() && Fair(old(Model()), Model(), config.accountSlots)
      ensures Total(Model().pending) <= config.globalSlots ||
              forall a :: a !in locals ==> Len(Model(), a) <= config.accountSlots
      ensures NeededCut(config, old(Model()), Model())
      ensures KeepsEntries(old(lookup.all), old(priced.items), lookup.all, priced.items)
    {
      ghost var p0 := Model();
      NoOffenders(p0, (set a | a in p0.pending && Spammer(p0, a, config.accountSlots)), config.accountSlots);
      var total := Count(Normal(pending));
      if total <= config.globalSlots { return; }
      var offs;
      ghost var spam;
      offs, total, spam := EqualiseOffenders(p0, total);
      EqualisingIsFair(p0, Model(), offs, spam, config.accountSlots);
      if total > config.globalSlots {
        AllTaken(p0, Model(), offs, config.accountSlots);
        if |offs| > 0 {
          total := LevelOffenders(offs, p0, total);
        }
        LevellingIsFair(p0, Model(), offs, config.accountSlots);
      }
    }

    /** Removes an account's `count` highest queued transactions, highest first. */
    method DropHighestQueued(a: Address, count: nat, ghost p: Pool, ghost x: Account, ghost k: nat)
      requires Shaped() && Tracked() && Stands(p, a, x) && |x.que| == k + count
      modifies this`pending, this`queue, this`next, lookup, priced
      ensures Shaped() && Tracked() && Stands(p, a, x.(que := Keep(x.que, k)))
      ensures KeepsEntries(old(lookup.all), old(priced.items), lookup.all, priced.items)
    {
      ghost var y := x;
      var left := count;
      while left > 0
        invariant Shaped() && Tracked() && Stands(p, a, y) && CuttingQueue(x, y, left, k)
        invariant KeepsEntries(old(lookup.all), old(priced.items), lookup.all, priced.items)
      {
        CuttingQueueStep(x, y, left, k);
        y := DropHighestOf(a, p, y);
        left := left - 1;
      }
      CuttingQueueEnds(x, y, k);
    }

    method DropHighestOf(a: Address, ghost p: Pool, ghost x: Account) returns (ghost y: Account)
      requires Shaped() && Tracked() && Stands(p, a, x) && x.que != map[]
      modifies this`pending, this`queue, this`next, lookup, priced
      ensures y == x.(que := Drop(x.que, Highest(x.que)))
      ensures Shaped() && Tracked() && Stands(p, a, y)
      ensures KeepsEntries(old(lookup.all), old(priced.items), lookup.all, priced.items)
    {
      PutReads(p, a, x);
      NormalSet(queue, a, NewList(false));
      y := DropOneQueued(a, Highest(queue[a].items), p, x);
    }

    /** Removes all of an account's queued transactions, lowest first. */
    method DropAllQueued(a: Address, ghost p: Pool, ghost x: Account)
      requires Shaped() && Tracked() && Stands(p, a, x)
      modifies this`pending, this`queue, this`next, lookup, priced
      ensures Shaped() && Tracked() && Stands(p, a, x.(que := map[]))
      ensures KeepsEntries(old(lookup.all), old(priced.items), lookup.all, priced.items)
    {
      ghost var y := x;
      while true
        invariant Shaped() && Tracked() && Stands(p, a, y) && y == x.(que := y.que)
        invariant KeepsEntries(old(lookup.all), old(priced.items), lookup.all, priced.items)
        decreases |y.que|
      {
        PutReads(p, a, y);
        NormalSet(queue, a, NewList(false));
        if a !in queue || queue[a].items == map[] { break; }
        DropSize(y.que, Lowest(y.que));
        y := DropOneQueued(a, Lowest(queue[a].items), p, y);
      }
    }

    method DropOneQueued(a: Address, n: nat, ghost p: Pool, ghost x: Account) returns (ghost y: Account)
      requires Shaped() && Tracked() && Stands(p, a, x) && n in x.que
      modifies this`pending, this`queue, this`next, lookup, priced
      ensures y == x.(que := Drop(x.que, n))
      ensures Shaped() && Tracked() && Stands(p, a, y)
      ensures KeepsEntries(old(lookup.all), old(priced.items), lookup.all, priced.items)
    {
      y := x.(que := Drop(x.que, n));
      PutAgain(p, Model(), a, x, y);
      NormalSet(queue, a, NewList(false));
      RemoveQueuedTx(Model(), a, n);
      RemoveTx(queue[a].items[n], true);
    }

    /** Drops queued transactions of remote accounts, account by account in any order, when the queued total
        is over its limit. */
    method TruncateQueue()
      requires Shaped() && Tracked()
      modifies this`pending, this`queue, this`next, lookup, priced
      ensures Shaped() && Tracked() && QueueTrimmed(old(Model()), Model())
      ensures NeededQueueCut(config, old(Model()), Model())
      ensures KeepsEntries(old(lookup.all), old(priced.items), lookup.all, priced.items)
    {
      ghost var p0 := Model();
      QueueUntrimmed(p0);
      var queued := Count(Normal(queue));
      if queued <= config.globalQueue { return; }
      var todo := set a | a in queue && a !in locals;
      var drop: nat := queued - config.globalQueue;
      DroppingStarts(p0, todo, drop, config.globalQueue);
      while drop > 0 && todo != {}
        invariant Shaped() && Tracked() && Dropping(p0, Model(), todo, drop, config.globalQueue)
        invariant KeepsEntries(old(lookup.all), old(priced.items), lookup.all, priced.items)
        decreases todo
      {
        var a :| a in todo;
        drop := DropSome(a, drop, p0, todo);
        todo := todo - {a};
      }
      if drop > 0 { NoRemoteQueued(Model()); }
    }

    /** Drops one account's queue, or only its highest transactions if that suffices. */
    method DropSome(a: Address, drop: nat, ghost p0: Pool, ghost todo: set<Address>) returns (left: nat)
      requires Shaped() && Tracked() && a in todo && drop > 0
      requires Dropping(p0, Model(), todo, drop, config.globalQueue)
      modifies this`pending, this`queue, this`next, lookup, priced
      ensures Shaped() && Tracked() && Dropping(p0, Model(), todo - {a}, left, config.globalQueue)
      ensures KeepsEntries(old(lookup.all), old(priced.items), lookup.all, priced.items)
    {
      ghost var p := Model();
      ghost var x := Of(p, a);
      assert AccountOk(x, a);
      PutSame(p, a);
      left := DropUpTo(a, drop, p, x, x.(que := Keep(x.que, Surviving(|x.que|, drop))));
      DropStep(p0, p, Model(), todo, a, drop, config.globalQueue);
    }

    method DropWhole(a: Address, ghost p: Pool, ghost x: Account)
      requires Shaped() && Tracked() && Stands(p, a, x) && Keyed(x.que)
      modifies this`pending, this`queue, this`next, lookup, priced
      ensures Shaped() && Tracked() && Stands(p, a, x.(que := Keep(x.que, 0)))
      ensures KeepsEntries(old(lookup.all), old(priced.items), lookup.all, priced.items)
    {
      KeepNone(x.que);
      DropAllQueued(a, p, x);
    }

    method DropUpTo(a: Address, drop: nat, ghost p: Pool, ghost x: Account, ghost y: Account) returns (left: nat)
      requires Shaped() && Tracked() && Stands(p, a, x) && Keyed(x.que)
      requires y == x.(que := Keep(x.que, Surviving(|x.que|, drop)))
      modifies this`pending, this`queue, this`next, lookup, priced
      ensures Shaped() && Tracked() && left == Remaining(|x.que|, drop) && Stands(p, a, y)
      ensures KeepsEntries(old(lookup.all), old(priced.items), lookup.all, priced.items)
    {
      PutReads(p, a, x);
      var size := QueueSize(a);
      if size <= drop {
        assert Surviving(|x.que|, drop) == 0;
        DropWhole(a, p, x);
        left := drop - size;
      } else {
        DropHighestQueued(a, drop, p, x, size - drop);
        left := 0;
      }
    }

    /** promoteExecutables: promotes the given accounts, then keeps the pool within its limits. */
    method PromoteExecutables(accounts: set<Address>)
      requires Shaped() && Tracked()
      modifies this`pending, this`queue, this`next, lookup, priced
      ensures Shaped() && Tracked() && Settles(config, old(Model()), Model(), accounts)
      ensures KeepsEntries(old(lookup.all), old(priced.items), lookup.all, priced.items)
    {
      PromoteAccounts(accounts);
      ghost var p1 := Model();
      TruncatePending();
      ghost var p2 := Model();
      TruncateQueue();
      BoundedAfterQueue(config, p2, Model());
      assert SettlesBy(config, old(Model()), p1, p2, Model(), accounts);
    }

    method PromoteAccounts(accounts: set<Address>)
      requires Shaped() && Tracked()
      modifies this`pending, this`queue, this`next, lookup, priced
      ensures Shaped() && Tracked() && Promoted(config, old(Model()), Model(), accounts)
      ensures KeepsEntries(old(lookup.all), old(priced.items), lookup.all, priced.items)
    {
      ghost var p0 := Model();
      var todo := accounts;
      while todo != {}
        invariant Shaped() && Tracked() && todo <= accounts && Promoting(config, p0, Model(), accounts, todo)
        invariant KeepsEntries(old(lookup.all), old(priced.items), lookup.all, priced.items)
        decreases todo
      {
        var a :| a in todo;
        PromoteOne(a, p0, accounts, todo);
        todo := todo - {a};
      }
    }

    method PromoteOne(a: Address, ghost p0: Pool, ghost accounts: set<Address>, ghost todo: set<Address>)
      requires Shaped() && Tracked() && Promoting(config, p0, Model(), accounts, todo) && a in accounts && a in todo
      modifies this`pending, this`queue, this`next, lookup, priced
      ensures Shaped() && Tracked() && Promoting(config, p0, Model(), accounts, todo - {a})
      ensures KeepsEntries(old(lookup.all), old(priced.items), lookup.all, priced.items)
    {
      PromotedStep(config, p0, Model(), accounts, todo, a);
      PromoteAccount(a);
    }

    method DemoteUnexecutables()
      requires Shaped() && Tracked()
      modifies this`pending, this`queue, lookup, priced
      ensures Shaped() && Tracked() && Demoted(old(Model()), Model())
      ensures NoEmpty(pending, {})
      ensures KeepsEntries(old(lookup.all), old(priced.items), lookup.all, priced.items)
    {
      ghost var p0 := Model();
      var accounts := pending.Keys;
      var todo := accounts;
      while todo != {}
        invariant Shaped() && Tracked() && todo <= accounts && Demoting(p0, Model(), accounts, todo)
        invariant NoEmpty(pending, todo)
        invariant KeepsEntries(old(lookup.all), old(priced.items), lookup.all, priced.items)
        decreases todo
      {
        var a :| a in todo;
        DemoteOne(a, p0, accounts, todo);
        todo := todo - {a};
      }
      DemotingEnds(p0, Model(), accounts);
    }

    method DemoteOne(a: Address, ghost p0: Pool, ghost accounts: set<Address>, ghost todo: set<Address>)
      requires Shaped() && Tracked() && Demoting(p0, Model(), accounts, todo) && a in accounts && a in todo
      requires NoEmpty(pending, todo)
      modifies this`pending, this`queue, lookup, priced
      ensures Shaped() && Tracked() && Demoting(p0, Model(), accounts, todo - {a})
      ensures NoEmpty(pending, todo - {a})
      ensures KeepsEntries(old(lookup.all), old(priced.items), lookup.all, priced.items)
    {
      DemotedStep(p0, Model(), accounts, todo, a);
      DemoteAccount(a);
    }

    /** validateTx */
    method ValidateTx(tx: Tx, local: bool) returns (err: Option<Error>)
      ensures err == Validate(Model(), tx, local)
    {
      if tx.size > 32 * 1024 { return Some(OversizedData); }
      if tx.value < 0 { return Some(NegativeValue); }
      if state.maxGas < tx.gas { return Some(GasLimit); }
      if !tx.signed { return Some(InvalidSender); }
      if !(local || tx.sender in locals) && gasPrice > tx.price { return Some(Underpriced); }
      if state.Nonce(tx.sender) > tx.nonce { return Some(NonceTooLow); }
      if state.Balance(tx.sender) < tx.Cost() { return Some(InsufficientFunds); }
      var intrinsic := Gas.ComputeIntrinsicGas(tx.data, tx.create);
      if intrinsic.None? { return Some(OutOfGas); }
      if tx.gas < intrinsic.value { return Some(IntrinsicGasTooLow); }
      return None;
    }

    /** Removes the transactions the price heap gave up, which have no entries any more. */
    method RemoveDropped(drop: seq<Tx>)
      requires Shaped() && Tracked() && Covers(priced.items, lookup.all - (set tx | tx in drop))
      modifies this`pending, this`queue, this`next, lookup, priced
      ensures Valid() && Model() == RemoveTxs(old(Model()), drop)
    {
      ghost var gone := set tx | tx in drop;
      for i := 0 to |drop|
        invariant Shaped() && Tracked() && Model() == RemoveTxs(old(Model()), drop[..i])
        invariant Covers(priced.items, lookup.all - gone) && lookup.all == old(lookup.all) - (set tx | tx in drop[..i])
      {
        assert drop[..i + 1][..i] == drop[..i] && drop[..i + 1] == drop[..i] + [drop[i]];
        RemoveTx(drop[i], false);
      }
      assert drop[..|drop|] == drop;
    }

    /** Makes room in a full pool; fails when the transaction is no better than the worst pooled one. */
    method MakeRoom(tx: Tx, local: bool) returns (ok: bool, ghost drop: seq<Tx>)
      requires Valid()
      modifies this`pending, this`queue, this`next, lookup, priced
      ensures Valid() && Model() == RemoveTxs(old(Model()), drop)
      ensures
        var limit := config.globalSlots + config.globalQueue;
        var worst :=
          !IsLocal(tx, locals) && old(lookup.all) != {} && forall t :: t in old(lookup.all) ==> tx.price <= t.price;
        if |old(lookup.all)| < limit then ok && drop == []
        else if !local && worst then !ok && drop == []
        else ok && CheapestRemote(drop, old(lookup.all), |old(lookup.all)| - (limit - 1), locals)
    {
      ok, drop := true, [];
      var limit := config.globalSlots + config.globalQueue;
      if |lookup.all| < limit { return; }
      if !local {
        var under := priced.Underpriced(tx, locals);
        if under { return false, []; }
      }
      var discarded := priced.Discard(|lookup.all| - (limit - 1), locals);
      drop := discarded;
      RemoveDropped(discarded);
    }

    /** Places a validated transaction. */
    method Place(tx: Tx, local: bool) returns (r: Result)
      requires Valid()
      modifies this`pending, this`queue, this`locals, lookup, priced
      ensures Valid() && (Model(), r) == Admit(config, old(Model()), tx, local)
    {
      ghost var p := Model();
      PlacedExactly(p, tx, lookup.all);
      var inserted, executable, replaced := Exchange(tx);
      if !inserted { return Err(ReplaceUnderpriced); }
      if !executable && local { MakeLocal(tx.sender); }
      return Ok(replaced);
    }

    /** Puts a transaction over an executable one of the same nonce, or into the queue. */
    method Exchange(tx: Tx) returns (inserted: bool, executable: bool, replaced: bool)
      requires Shaped()
      modifies this`pending, this`queue, lookup, priced
      ensures Shaped()
      ensures
        var x := Of(old(Model()), tx.sender);
        && executable == (tx.nonce in x.pend)
        && inserted == Accepts(if executable then x.pend else x.que, tx, config.priceBump)
        && replaced == (inserted && (executable || tx.nonce in x.que))
        && (if inserted then
              && Stands(old(Model()), tx.sender, Placed(x, tx))
              && lookup.all == old(lookup.all) - Displaced(x, tx) + {tx}
            else Model() == old(Model()) && lookup.all == old(lookup.all))
      ensures KeepsEntries(old(lookup.all), old(priced.items), lookup.all, priced.items)
    {
      NormalSet(pending, tx.sender, NewList(true));
      executable := tx.sender in pending && tx.nonce in pending[tx.sender].items;
      if executable {
        inserted := ReplacePending(tx);
        replaced := inserted;
      } else {
        AcceptsIff(Of(Model(), tx.sender).que, tx, config.priceBump);
        inserted, replaced := EnqueueTx(tx);
      }
    }

    method MakeLocal(a: Address)
      requires Valid()
      modifies this`locals
      ensures Valid() && Model() == old(Model()).(locals := old(locals) + {a})
    {
      InvLocals(Model(), locals + {a});
      ghost var p := Model().(locals := locals + {a});
      locals := locals + {a};
      assert Model() == p;
    }

    /** Replaces an executable transaction of the same nonce, if outbid. */
    method ReplacePending(tx: Tx) returns (inserted: bool)
      requires Shaped() && tx.sender in pending && tx.nonce in pending[tx.sender].items
      modifies this`pending, lookup, priced
      ensures
        var x := Of(old(Model()), tx.sender);
        && Shaped() && inserted == Accepts(x.pend, tx, config.priceBump)
        && (if inserted then
              && Stands(old(Model()), tx.sender, x.(pend := x.pend[tx.nonce := tx]))
              && lookup.all == old(lookup.all) - {x.pend[tx.nonce]} + {tx}
            else Model() == old(Model()) && lookup.all == old(lookup.all))
      ensures KeepsEntries(old(lookup.all), old(priced.items), lookup.all, priced.items)
    {
      var from := tx.sender;
      var list := pending[from];
      NormalSet(pending, from, list);
      inserted := Accepts(list.items, tx, config.priceBump);
      if !inserted { return; }
      assert AccountOk(Of(Model(), from), from);
      SetPending(from, Insert(list, tx));
      Track(tx, Some(list.items[tx.nonce]));
    }

    /** add: validates a transaction, makes room for it and places it. */
    method Add(tx: Tx, local: bool) returns (r: Result, ghost drop: seq<Tx>)
      requires Valid()
      modifies this`pending, this`queue, this`next, this`locals, lookup, priced
      ensures Valid()
      ensures Added(config, old(Model()), tx, local, drop, Model(), r)
    {
      drop := [];
      LiveIsPooled(Model(), lookup.all);
      if tx in lookup.all { return Err(KnownTransaction), []; }
      var err := ValidateTx(tx, local);
      if err.Some? { return Err(err.value), []; }
      var ok;
      RemoveTxsKeeps(Model(), [], {});
      ok, drop := MakeRoom(tx, local);
      if !ok { return Err(Underpriced), []; }
      RemoveTxsKeeps(old(Model()), drop, {});
      r := Place(tx, local);
    }

    /** The promise of the pool between operations. */
    ghost predicate Sound(contiguous: bool, affordable: bool)
      reads this, priced, lookup
    {
      && Valid() && Floor(Model())
      && (contiguous ==> Contiguous(Model()))
      && (affordable ==> Affordable(Model()))
    }

    /** promoteExecutables, as the operations that end with it use it. */
    method Settle(accounts: set<Address>, ghost contiguous: bool, ghost affordable: bool)
      requires Valid() && Floor(Model()) && (contiguous ==> ContiguousBut(Model(), accounts))
      requires affordable ==> Affordable(Model())
      modifies this`pending, this`queue, this`next, lookup, priced
      ensures Sound(contiguous, affordable) && Settles(config, old(Model()), Model(), accounts)
    {
      PromoteExecutables(accounts);
      SettlesPooled(config, old(Model()), Model(), accounts);
      if contiguous { SettlesContiguous(config, old(Model()), Model(), accounts); }
    }

    /** addTx: AddLocal and AddRemote. The ghost results are the transactions discarded to make room and the
        pool before promotion. */
    method AddTx(tx: Tx, local: bool, ghost contiguous: bool, ghost affordable: bool)
      returns (r: Result, ghost drop: seq<Tx>, ghost mid: Pool)
      requires Sound(contiguous, affordable)
      modifies this`pending, this`queue, this`next, this`locals, lookup, priced
      ensures Sound(contiguous, affordable) && Added(config, old(Model()), tx, local, drop, mid, r)
      ensures if r == Ok(false) then Settles(config, mid, Model(), {tx.sender}) else Model() == mid
    {
      r, drop := Add(tx, local);
      mid := Model();
      AddedKeeps(config, old(Model()), tx, local, drop, mid, r, {});
      if contiguous { AddedContiguous(config, old(Model()), tx, local, drop, mid, r); }
      if r == Ok(false) {
        Settle({tx.sender}, contiguous, affordable);
      }
    }

    /** addTxs: adds a batch, then promotes the accounts that gained a transaction. The ghost results are the
        pools between the additions and what each discarded. */
    method AddTxs(txs: seq<Tx>, local: bool, ghost contiguous: bool, ghost affordable: bool)
      returns (rs: seq<Result>, ghost steps: seq<Pool>, ghost drops: seq<seq<Tx>>)
      requires Sound(contiguous, affordable)
      modifies this`pending, this`queue, this`next, this`locals, lookup, priced
      ensures Sound(contiguous, affordable) && state == old(state)
      ensures AddedAll(config, old(Model()), txs, local, steps, drops, rs)
      ensures
        var dirty := Dirty(txs, rs);
        if dirty != {} then Settles(config, steps[|txs|], Model(), dirty) else Model() == steps[|txs|]
    {
      var dirty;
      rs, dirty, steps, drops := AddEach(txs, local, contiguous, affordable);
      if dirty != {} {
        Settle(dirty, contiguous, affordable);
      }
    }

    /** add, as the operations that promote afterwards use it. */
    method AddKept(tx: Tx, local: bool, ghost dirty: set<Address>, ghost contiguous: bool, ghost affordable: bool)
      returns (r: Result, ghost drop: seq<Tx>)
      requires Sound(false, affordable) && (contiguous ==> ContiguousBut(Model(), dirty))
      modifies this`pending, this`queue, this`next, this`locals, lookup, priced
      ensures Sound(false, affordable) && state == old(state)
      ensures contiguous ==> ContiguousBut(Model(), if r == Ok(false) then dirty + {tx.sender} else dirty)
      ensures Added(config, old(Model()), tx, local, drop, Model(), r)
    {
      ghost var before := Model();
      r, drop := Add(tx, local);
      AddedKeeps(config, before, tx, local, drop, Model(), r, dirty);
    }

    /** The loop of addTxsLocked, which gathers the accounts to promote. */
    method AddEach(txs: seq<Tx>, local: bool, ghost contiguous: bool, ghost affordable: bool)
      returns (rs: seq<Result>, dirty: set<Address>, ghost steps: seq<Pool>, ghost drops: seq<seq<Tx>>)
      requires Sound(contiguous, affordable)
      modifies this`pending, this`queue, this`next, this`locals, lookup, priced
      ensures Sound(false, affordable) && state == old(state) && (contiguous ==> ContiguousBut(Model(), dirty))
      ensures AddedAll(config, old(Model()), txs, local, steps, drops, rs) && steps[|txs|] == Model()
      ensures dirty == Dirty(txs, rs)
    {
      ghost var p0 := Model();
      rs, steps, drops, dirty := [], [p0], [], {};
      for i := 0 to |txs|
        invariant Sound(false, affordable) && state == old(state)
        invariant contiguous ==> ContiguousBut(Model(), dirty)
        invariant Batch(config, p0, txs[..i], local, steps, drops, rs, Model(), dirty)
      {
        var r;
        ghost var drop;
        r, drop := AddKept(txs[i], local, dirty, contiguous, affordable);
        BatchNext(config, p0, txs, i, local, steps, drops, rs, drop, Model(), r, dirty);
        rs, steps, drops := rs + [r], steps + [Model()], drops + [drop];
        if r == Ok(false) { dirty := dirty + {txs[i].sender}; }
      }
      assert txs[..|txs|] == txs;
    }

    /** reset, once the chain walk has found what to re-inject: takes over the new state, re-injects, demotes,
        lets the virtual nonces follow and promotes. Contiguity survives when nothing is re-injected. The ghost
        results are the pool after each of the first three, and the course of the re-injection. */
    method Reset(reinject: seq<Tx>, newState: State, ghost contiguous: bool)
      returns (ghost p1: Pool, ghost p2: Pool, ghost p3: Pool, ghost batch: (seq<Result>, seq<Pool>, seq<seq<Tx>>))
      requires Sound(contiguous, false)
      modifies this`state, this`pending, this`queue, this`next, this`locals, lookup, priced
      ensures Sound(contiguous && reinject == [], true) && state == newState
      ensures AddedAll(config, Rebased(old(Model()), newState), reinject, false, batch.1, batch.2, batch.0)
      ensures
        var dirty := Dirty(reinject, batch.0);
        if dirty != {} then Settles(config, batch.1[|reinject|], p1, dirty) else p1 == batch.1[|reinject|]
      ensures Inv(p1) && Inv(p3)
      ensures Demoted(p1, p2) && Followed(p2, p3) && Settles(config, p3, Model(), p3.queue.Keys)
    {
      ghost var p0 := Model();
      TakeState(newState);
      var rs;
      ghost var steps, drops;
      rs, steps, drops := AddTxs(reinject, false, false, false);
      batch := (rs, steps, drops);
      p1 := Model();
      assert reinject == [] ==> p1 == Rebased(p0, newState) by { assert Dirty([], rs) == {}; }
      p2, p3 := React(p0, contiguous && reinject == []);
    }

    /** Takes over a new chain state, forgetting all virtual nonces. */
    method TakeState(newState: State)
      requires Sound(false, false)
      modifies this`state, this`next
      ensures Sound(false, false) && Model() == Rebased(old(Model()), newState)
    {
      InvRebased(Model(), newState);
      state, next := newState, map[];
    }

    /** What a reset does once the pool holds what was re-injected: demotes, lets the virtual nonces follow
        and promotes. `p0` is the pool before the new state. */
    method React(ghost p0: Pool, ghost contiguous: bool) returns (ghost p2: Pool, ghost p3: Pool)
      requires Sound(false, false)
      requires contiguous ==> Contiguous(p0) && Model() == Rebased(p0, state)
      modifies this`pending, this`queue, this`next, lookup, priced
      ensures Sound(contiguous, true)
      ensures Demoted(old(Model()), p2) && Followed(p2, p3) && Inv(p3) && Settles(config, p3, Model(), p3.queue.Keys)
    {
      ghost var p1 := Model();
      DemoteUnexecutables();
      p2 := Model();
      DemotedPooled(p1, p2);
      FollowNonces();
      p3 := Model();
      FollowedPooled(p2, p3);
      if contiguous { ResetContiguous(p0, state, p2, p3); }
      var queued := set a | a in queue && queue[a].items != map[];
      assert queued == p3.queue.Keys;
      forall a ensures ListFits(p3.state, Of(p3, a).pend) { ResetFits(p1, p2, p3, a); }
      Settle(queued, contiguous, false);
      SettlesAffordable(config, p3, Model(), queued);
    }

    /** Sets every account's virtual nonce to follow its last executable transaction. */
    method FollowNonces()
      requires Shaped() && NoEmpty(pending, {})
      modifies this`next
      ensures Shaped() && Followed(old(Model()), Model())
    {
      ghost var p0 := Model();
      var todo := pending.Keys;
      while todo != {}
        invariant Shaped() && todo <= pending.Keys && Following(p0, Model(), pending.Keys, todo)
        decreases todo
      {
        var a :| a in todo;
        FollowOne(a, p0, pending.Keys, todo);
        todo := todo - {a};
      }
      FollowingEnds(p0, Model(), pending.Keys);
    }

    method FollowOne(a: Address, ghost p0: Pool, ghost accounts: set<Address>, ghost todo: set<Address>)
      requires Shaped() && a in pending && pending[a].items != map[]
      requires Following(p0, Model(), accounts, todo) && a in accounts && a in todo
      modifies this`next
      ensures Shaped() && Following(p0, Model(), accounts, todo - {a})
    {
      FollowingStep(p0, Model(), accounts, todo, a);
      NormalSet(pending, a, pending[a]);
      SetNonce(a, Highest(pending[a].items) + 1);
    }

    /** SetGasPrice: raises or lowers the floor and drops every remote transaction below it. */
    method SetGasPrice(price: int, ghost contiguous: bool, ghost affordable: bool) returns (ghost drop: seq<Tx>)
      requires Sound(contiguous, affordable)
      modifies this`gasPrice, this`pending, this`queue, this`next, lookup, priced
      ensures Sound(contiguous, affordable) && Model() == RemoveTxs(old(Model()).(gasPrice := price), drop)
      ensures forall tx :: tx in drop <==> tx in old(lookup.all) && !IsLocal(tx, locals) && tx.price < price
    {
      ghost var p0 := Model();
      gasPrice := price;
      InvPriced(p0, price);
      var dropped := priced.Cap(price, locals);
      drop := dropped;
      RemoveTxsKeeps(Model(), dropped, {});
      RemoveDropped(dropped);
    }

    /** The eviction tick: removes the queues of remote accounts that have been idle too long. */
    method Evict(idle: set<Address>, ghost contiguous: bool, ghost affordable: bool)
      requires Sound(contiguous, affordable)
      modifies this`pending, this`queue, this`next, lookup, priced
      ensures Sound(contiguous, affordable)
      ensures forall a :: Of(Model(), a) ==
                if a in idle && a !in locals then Of(old(Model()), a).(que := map[]) else Of(old(Model()), a)
    {
      ghost var p0 := Model();
      var remote := idle - locals;
      var todo := remote;
      while todo != {}
        invariant Valid() && todo <= remote && Evicting(p0, Model(), remote, todo)
        decreases todo
      {
        var a :| a in todo;
        EvictOne(a, p0, remote, todo);
        todo := todo - {a};
      }
      EvictedKeeps(p0, Model(), remote);
    }

    method EvictOne(a: Address, ghost p0: Pool, ghost remote: set<Address>, ghost todo: set<Address>)
      requires Valid() && Evicting(p0, Model(), remote, todo) && a in remote && a in todo
      modifies this`pending, this`queue, this`next, lookup, priced
      ensures Valid() && Evicting(p0, Model(), remote, todo - {a})
    {
      ghost var p := Model();
      PutSame(p, a);
      PutReads(p, a, Of(p, a).(que := map[]));
      DropAllQueued(a, p, Of(p, a));
    }
  }
}
