/** Whole runs of the pool: any sequence of submissions, batches, chain heads, price changes and evictions. */
module Runs {
  import opened Types
  import opened PoolModel
  import opened Admission
  import opened PoolSteps
  import opened Pooling
  import opened Priced

  datatype Event =
    | AddLocal(tx: Tx)
    | AddRemote(tx: Tx)
    | AddLocals(txs: seq<Tx>)
    | AddRemotes(txs: seq<Tx>)
    | NewHead(reinject: seq<Tx>, state: State)
    | SetGasPrice(price: int)
    | Evict(idle: set<Address>)

  /** No reset of the run re-injects transactions of an abandoned branch. */
  predicate NothingReinjected(events: seq<Event>) {
    forall i :: 0 <= i < |events| && events[i].NewHead? ==> events[i].reinject == []
  }

  /** What an event may make of the pool. */
  ghost predicate Happens(cfg: Config, e: Event, p: Pool, q: Pool) {
    match e
    case AddLocal(tx) => Submits(cfg, tx, !cfg.noLocals, p, q)
    case AddRemote(tx) => Submits(cfg, tx, false, p, q)
    case AddLocals(txs) => SubmitsAll(cfg, txs, !cfg.noLocals, p, q)
    case AddRemotes(txs) => SubmitsAll(cfg, txs, false, p, q)
    case NewHead(reinject, state) => Resets(cfg, reinject, state, p, q)
    case SetGasPrice(price) => Reprices(price, p, q)
    case Evict(idle) =>
      q.state == p.state && q.locals == p.locals && q.gasPrice == p.gasPrice &&
      forall a :: Of(q, a) == if a in idle && a !in p.locals then Of(p, a).(que := map[]) else Of(p, a)
  }

  ghost predicate Submits(cfg: Config, tx: Tx, local: bool, p: Pool, q: Pool) {
    exists drop, mid, r :: Added(cfg, p, tx, local, drop, mid, r) &&
        Promotes(cfg, mid, q, if r == Ok(false) then {tx.sender} else {})
  }

  ghost predicate SubmitsAll(cfg: Config, txs: seq<Tx>, local: bool, p: Pool, q: Pool) {
    exists steps, drops, rs ::
      AddedAll(cfg, p, txs, local, steps, drops, rs) && Promotes(cfg, steps[|txs|], q, Dirty(txs, rs))
  }

  ghost predicate Promotes(cfg: Config, p: Pool, q: Pool, dirty: set<Address>) {
    if dirty == {} then q == p else Settles(cfg, p, q, dirty)
  }

  ghost predicate Resets(cfg: Config, reinject: seq<Tx>, state: State, p: Pool, q: Pool) {
    exists p1, p2, p3 ::
      && Inv(p1) && Inv(p3)
      && SubmitsAll(cfg, reinject, false, Rebased(p, state), p1)
      && Demoted(p1, p2)
      && Followed(p2, p3)
      && Settles(cfg, p3, q, p3.queue.Keys)
  }

  ghost predicate Reprices(price: int, p: Pool, q: Pool) {
    exists drop: seq<Tx> ::
      && (forall tx :: tx in drop <==> Pooled(p, tx) && !IsLocal(tx, p.locals) && tx.price < price)
      && q == RemoveTxs(p.(gasPrice := price), drop)
  }

  method Step(pool: TxPool, e: Event, ghost contiguous: bool)
    requires pool.Sound(contiguous, true)
    modifies pool, pool.lookup, pool.priced
    ensures pool.Sound(contiguous && !(e.NewHead? && e.reinject != []), true)
    ensures Happens(pool.config, e, old(pool.Model()), pool.Model())
  {
    var local := !pool.config.noLocals;
    match e {
      case AddLocal(tx) =>
        Submit(pool, tx, local, contiguous);
      case AddRemote(tx) =>
        Submit(pool, tx, false, contiguous);
      case AddLocals(txs) =>
        SubmitAll(pool, txs, local, contiguous);
      case AddRemotes(txs) =>
        SubmitAll(pool, txs, false, contiguous);
      case NewHead(reinject, state) =>
        Head(pool, reinject, state, contiguous);
      case SetGasPrice(price) =>
        Reprice(pool, price, contiguous);
      case Evict(idle) =>
        pool.Evict(idle, contiguous, true);
    }
  }

  method Submit(pool: TxPool, tx: Tx, local: bool, ghost contiguous: bool)
    requires pool.Sound(contiguous, true)
    modifies pool, pool.lookup, pool.priced
    ensures pool.Sound(contiguous, true) && Submits(pool.config, tx, local, old(pool.Model()), pool.Model())
  {
    var r, drop, mid := pool.AddTx(tx, local, contiguous, true);
    assert Added(pool.config, old(pool.Model()), tx, local, drop, mid, r);
  }

  method SubmitAll(pool: TxPool, txs: seq<Tx>, local: bool, ghost contiguous: bool)
    requires pool.Sound(contiguous, true)
    modifies pool, pool.lookup, pool.priced
    ensures pool.Sound(contiguous, true) && SubmitsAll(pool.config, txs, local, old(pool.Model()), pool.Model())
  {
    var rs, steps, drops := pool.AddTxs(txs, local, contiguous, true);
    assert AddedAll(pool.config, old(pool.Model()), txs, local, steps, drops, rs);
  }

  method Head(pool: TxPool, reinject: seq<Tx>, state: State, ghost contiguous: bool)
    requires pool.Sound(contiguous, true)
    modifies pool, pool.lookup, pool.priced
    ensures pool.Sound(contiguous && reinject == [], true)
    ensures Resets(pool.config, reinject, state, old(pool.Model()), pool.Model())
  {
    ghost var p := pool.Model();
    var p1, p2, p3, batch := pool.Reset(reinject, state, contiguous);
    assert AddedAll(pool.config, Rebased(p, state), reinject, false, batch.1, batch.2, batch.0);
    assert SubmitsAll(pool.config, reinject, false, Rebased(p, state), p1);
  }

  method Reprice(pool: TxPool, price: int, ghost contiguous: bool)
    requires pool.Sound(contiguous, true)
    modifies pool, pool.lookup, pool.priced
    ensures pool.Sound(contiguous, true) && Reprices(price, old(pool.Model()), pool.Model())
  {
    ghost var p := pool.Model();
    var drop := pool.SetGasPrice(price, contiguous, true);
    assert forall tx :: tx in drop <==> Pooled(p, tx) && !IsLocal(tx, p.locals) && tx.price < price;
  }

  /** The pools of a run: each event makes the next pool of the one before. */
  ghost predicate Course(cfg: Config, events: seq<Event>, pools: seq<Pool>) {
    |pools| == |events| + 1 && forall i :: 0 <= i < |events| ==> Happens(cfg, events[i], pools[i], pools[i + 1])
  }

  lemma CourseSnoc(cfg: Config, events: seq<Event>, i: nat, pools: seq<Pool>, q: Pool)
    requires i < |events| && Course(cfg, events[..i], pools) && Happens(cfg, events[i], pools[i], q)
    ensures Course(cfg, events[..i + 1], pools + [q])
  {
    var more := pools + [q];
    forall k | 0 <= k < i + 1 ensures Happens(cfg, events[..i + 1][k], more[k], more[k + 1]) {
      if k < i { assert Happens(cfg, events[..i][k], pools[k], pools[k + 1]); }
    }
  }

  /** After any run: the lookup is exactly the executable and the queued transactions, which share no nonce;
      every live transaction has a price entry; remote prices respect the floor; every transaction fits the
      state; and, if no reset re-injected anything, executable nonces are contiguous and nothing executable
      is left queued. The run's pools follow from an empty one by what each event may do. */
  method Run(config: Config, priceLimit: int, state: State, events: seq<Event>)
    returns (pool: TxPool, ghost pools: seq<Pool>)
    ensures pool.Sound(NothingReinjected(events), true)
    ensures pool.lookup.all == Live(pool.Model())
    ensures Course(config, events, pools) && pools[0] == Pool(state, map[], map[], map[], {}, priceLimit)
    ensures pools[|events|] == pool.Model()
  {
    pool := new TxPool(config, priceLimit, state);
    pools := [pool.Model()];
    ghost var start := pool.Model();
    for i := 0 to |events|
      invariant fresh(pool) && fresh(pool.lookup) && fresh(pool.priced)
      invariant Reached(pool, config, events[..i], start, pools)
    {
      pools := StepOn(pool, config, events, i, start, pools);
    }
    assert events[..|events|] == events;
    LiveIsPooled(pool.Model(), pool.lookup.all);
  }

  /** The pool as a run from `start` has left it. */
  ghost predicate Reached(pool: TxPool, config: Config, events: seq<Event>, start: Pool, pools: seq<Pool>)
    reads pool, pool.lookup, pool.priced
  {
    && pool.config == config
    && pool.Sound(NothingReinjected(events), true)
    && Course(config, events, pools)
    && pools[0] == start
    && pools[|events|] == pool.Model()
  }

  method StepOn(pool: TxPool, ghost config: Config, events: seq<Event>, i: nat, ghost start: Pool,
                ghost pools: seq<Pool>)
    returns (ghost more: seq<Pool>)
    requires i < |events| && Reached(pool, config, events[..i], start, pools)
    modifies pool, pool.lookup, pool.priced
    ensures Reached(pool, config, events[..i + 1], start, more)
  {
    ghost var calm := NothingReinjected(events[..i]);
    NothingNext(events, i);
    Step(pool, events[i], calm);
    CourseSnoc(config, events, i, pools, pool.Model());
    more := pools + [pool.Model()];
  }

  lemma NothingNext(events: seq<Event>, i: nat)
    requires i < |events|
    ensures NothingReinjected(events[..i + 1]) <==>
        NothingReinjected(events[..i]) && !(events[i].NewHead? && events[i].reinject != [])
  {
    assert events[..i + 1] == events[..i] + [events[i]];
  }
}
