/** Heads that turn a contiguous pool into one that is not, and runs in which they come (core/tx_pool.go). */
module GapRuns {
  import opened Types
  import opened Nonces
  import opened Lists
  import opened PoolModel
  import opened Truncation
  import opened Admission
  import opened PoolSteps
  import opened Pooling
  import opened Runs
  import opened Reinjection

  lemma ValidPayable(p: Pool, tx: Tx)
    requires Validate(p, tx, false).None?
    ensures !Unpayable(tx, p.state.Balance(tx.sender), p.state.maxGas)
  {
  }

  /** A transaction added where there is room and nothing is queued, queued. */
  lemma AddedRoom(cfg: Config, p: Pool, tx: Tx, drop: seq<Tx>, q: Pool, r: Result)
    requires Inv(p) && Validate(p, tx, false).None? && |Live(p)| < cfg.globalSlots + cfg.globalQueue
    requires Of(p, tx.sender).que == map[] && tx.nonce !in Of(p, tx.sender).pend
    requires Added(cfg, p, tx, false, drop, q, r)
    ensures r == Ok(false) && Inv(q) && SameRest(p, q)
    ensures Of(q, tx.sender) == Of(p, tx.sender).(que := map[tx.nonce := tx])
    ensures forall t :: Pooled(q, t) ==> Pooled(p, t) || t == tx
  {
    LivePooled(p);
    var a := tx.sender;
    PutReads(p, a, Placed(Of(p, a), tx));
    AdmitOk(cfg, p, tx, false);
  }

  /** Promotion of an account with one payable transaction queued, at the virtual nonce. */
  lemma PromoteSingle(x: Account, tx: Tx, balance: int, maxGas: nat, cap: Option<nat>)
    requires x.que == map[tx.nonce := tx] && x.next == tx.nonce && !Unpayable(tx, balance, maxGas)
    ensures Promote(x, tx.nonce, balance, maxGas, cap) == Account(x.pend[tx.nonce := tx], map[], tx.nonce + 1)
  {
    assert Payable(x.que, tx.nonce, balance, maxGas) == x.que;
    MoveSingle(x, tx);
  }

  lemma MoveSingle(x: Account, tx: Tx)
    requires x.que == map[tx.nonce := tx] && x.next == tx.nonce
    ensures MoveReady(x) == Account(x.pend[tx.nonce := tx], map[], tx.nonce + 1)
  {
    var n := tx.nonce;
    SingleReady(x.que, n);
    assert x.pend + x.que == x.pend[n := tx];
  }

  lemma SingleReady(que: map<nat, Tx>, n: nat)
    requires que.Keys == {n}
    ensures ReadyEnd(que, n) == n + 1 && Below(que, n + 1) == que && AtLeast(que, n + 1) == map[]
  {
    assert n in que && n + 1 !in que;
    assert Below(que, n + 1) == que;
  }

  /** Neither limit touches an account that is short and has nothing queued. */
  lemma SettlesShort(cfg: Config, p: Pool, q: Pool, accounts: set<Address>, a: Address, x: Account)
    requires Settles(cfg, p, q, accounts)
    requires x == (if a in accounts then PromoteOf(cfg, p, a) else Of(p, a)) && |x.pend| <= cfg.accountSlots
    requires x.que == map[]
    ensures Of(q, a) == x && SameRest(p, q)
  {
    var p1, p2 :| SettlesBy(cfg, p, p1, p2, q, accounts);
    assert Of(p1, a) == x;
    assert Of(p2, a) == x;
  }

  /** A transaction submitted where there is room, at the virtual nonce of a short account, is executable. */
  lemma SubmittedShort(cfg: Config, p: Pool, tx: Tx, mid: Pool, q: Pool, r: Result)
    requires Inv(p) && Validate(p, tx, false).None? && |Live(p)| < cfg.globalSlots + cfg.globalQueue
    requires
      var x := Of(p, tx.sender);
      && x.que == map[] && tx.nonce !in x.pend && |x.pend| < cfg.accountSlots
      && x.next == tx.nonce == p.state.Nonce(tx.sender)
    requires exists drop :: Added(cfg, p, tx, false, drop, mid, r)
    requires Promotes(cfg, mid, q, if r == Ok(false) then {tx.sender} else {})
    ensures Of(q, tx.sender) == Account(Of(p, tx.sender).pend[tx.nonce := tx], map[], tx.nonce + 1) && SameRest(p, q)
    ensures forall t :: Pooled(q, t) ==> Pooled(p, t) || t == tx
  {
    var a, n := tx.sender, tx.nonce;
    var drop :| Added(cfg, p, tx, false, drop, mid, r);
    AddedRoom(cfg, p, tx, drop, mid, r);
    var x := Of(mid, a);
    ValidPayable(p, tx);
    PromoteSingle(x, tx, p.state.Balance(a), p.state.maxGas, QueueCap(cfg, mid, a));
    SettlesShort(cfg, mid, q, {a}, a, Account(x.pend[n := tx], map[], n + 1));
    SettlesPooled(cfg, mid, q, {a});
  }

  /** The rest of a reset leaves two payable transactions apart where they are. */
  lemma ApartStays(x: Account, low: Tx, high: Tx, balance: int, maxGas: nat)
    requires x.pend == map[high.nonce := high, low.nonce := low] && low.nonce < high.nonce
    requires !Unpayable(low, balance, maxGas) && !Unpayable(high, balance, maxGas)
    ensures FollowPending(Demote(x, low.nonce, balance, maxGas)) == x.(next := high.nonce + 1)
  {
    assert low.nonce in x.pend && high.nonce in x.pend;
    assert Highest(x.pend) == high.nonce;
    assert AtLeast(x.pend, low.nonce) == x.pend;
    assert Only(x.pend, UnpayableBy(balance, maxGas)) == map[];
    assert Without(x.pend, UnpayableBy(balance, maxGas)) == x.pend;
    assert x.que + map[] == x.que;
  }

  lemma PromoteNothing(x: Account, n: nat, balance: int, maxGas: nat, cap: Option<nat>)
    requires x.que == map[]
    ensures Promote(x, n, balance, maxGas, cap) == x
  {
    assert Payable(x.que, n, balance, maxGas) == map[];
    NothingReady(x);
  }

  /** A head is due that makes a transaction two nonces below an account's only executable one valid
      again, and there is room for both. */
  ghost predicate Poised(cfg: Config, p: Pool, s: State, low: Tx, high: Tx) {
    && Inv(p) && cfg.accountSlots >= 2 && |Live(p)| < cfg.globalSlots + cfg.globalQueue
    && low.sender == high.sender && high.nonce == low.nonce + 2 && s.Nonce(low.sender) == low.nonce
    && Items(p.pending, high.sender) == map[high.nonce := high] && high.sender !in p.queue
    && Validate(Rebased(p, s), low, false).None? && !Unpayable(high, s.Balance(high.sender), s.maxGas)
  }

  /** The head that puts back that transaction, and no other, ends in a pool that is not contiguous. */
  lemma ReinjectionGap(cfg: Config, p: Pool, s: State, low: Tx, high: Tx, q: Pool)
    requires Poised(cfg, p, s, low, high) && Resets(cfg, [low], s, p, q)
    ensures !Contiguous(q)
  {
    var p1, p2, p3 :|
      && Inv(p1) && Inv(p3)
      && SubmitsAll(cfg, [low], false, Rebased(p, s), p1)
      && Demoted(p1, p2)
      && Followed(p2, p3)
      && Settles(cfg, p3, q, p3.queue.Keys);
    PutBackShort(cfg, p, s, low, high, p1);
    ValidPayable(Rebased(p, s), low);
    DemotedApart(s, low, high, p1, p2, p3);
    GapKept(cfg, low, high, p3, q, Of(p3, low.sender));
  }

  lemma DemotedApart(s: State, low: Tx, high: Tx, p1: Pool, p2: Pool, p3: Pool)
    requires low.nonce < high.nonce && p1.state == s && s.Nonce(low.sender) == low.nonce
    requires !Unpayable(low, s.Balance(low.sender), s.maxGas) && !Unpayable(high, s.Balance(low.sender), s.maxGas)
    requires Of(p1, low.sender).pend == map[high.nonce := high, low.nonce := low]
    requires Demoted(p1, p2) && Followed(p2, p3)
    ensures p3.state == s && Of(p3, low.sender) == Of(p1, low.sender).(next := high.nonce + 1)
  {
    ApartStays(Of(p1, low.sender), low, high, s.Balance(low.sender), s.maxGas);
  }

  lemma GapKept(cfg: Config, low: Tx, high: Tx, p: Pool, q: Pool, x: Account)
    requires high.nonce == low.nonce + 2 && p.state.Nonce(low.sender) == low.nonce && cfg.accountSlots >= 2
    requires x == Of(p, low.sender) && x.pend == map[high.nonce := high, low.nonce := low] && x.que == map[]
    requires x.next == high.nonce + 1 && Settles(cfg, p, q, p.queue.Keys)
    ensures !Contiguous(q)
  {
    TwoEntries(x.pend, low, high);
    ShortStays(cfg, p, q, low.sender, x);
    GapSeen(q, low.sender, low, high);
  }

  /** A short account with nothing queued goes through the final promotion as it is. */
  lemma ShortStays(cfg: Config, p: Pool, q: Pool, a: Address, x: Account)
    requires x == Of(p, a) && x.que == map[] && |x.pend| <= cfg.accountSlots && Settles(cfg, p, q, p.queue.Keys)
    ensures Of(q, a) == x && q.state == p.state
  {
    NothingPromoted(cfg, p, a, x);
    SettlesShort(cfg, p, q, p.queue.Keys, a, x);
  }

  lemma NothingPromoted(cfg: Config, p: Pool, a: Address, x: Account)
    requires x == Of(p, a) && x.que == map[]
    ensures PromoteOf(cfg, p, a) == x
  {
    PromoteNothing(x, p.state.Nonce(a), p.state.Balance(a), p.state.maxGas, QueueCap(cfg, p, a));
  }

  lemma TwoEntries(m: map<nat, Tx>, low: Tx, high: Tx)
    requires m == map[high.nonce := high, low.nonce := low] && low.nonce != high.nonce
    ensures |m| == 2
  {
    assert m.Keys == {high.nonce, low.nonce};
    assert |m| == |m.Keys|;
  }

  lemma PutBackShort(cfg: Config, p: Pool, s: State, low: Tx, high: Tx, p1: Pool)
    requires Poised(cfg, p, s, low, high) && SubmitsAll(cfg, [low], false, Rebased(p, s), p1)
    ensures Of(p1, low.sender) == Account(map[high.nonce := high, low.nonce := low], map[], low.nonce + 1)
    ensures p1.state == s
  {
    var r := Rebased(p, s);
    InvRebased(p, s);
    assert Live(r) == Live(p);
    var mid, result := OneSubmitted(cfg, r, low, p1);
    SubmittedShort(cfg, r, low, mid, p1, result);
  }

  /** A batch of one is a submission. */
  lemma OneSubmitted(cfg: Config, p: Pool, tx: Tx, q: Pool) returns (mid: Pool, r: Result)
    requires SubmitsAll(cfg, [tx], false, p, q)
    ensures exists drop :: Added(cfg, p, tx, false, drop, mid, r)
    ensures Promotes(cfg, mid, q, if r == Ok(false) then {tx.sender} else {})
  {
    var steps, drops, rs :|
      AddedAll(cfg, p, [tx], false, steps, drops, rs) && Promotes(cfg, steps[1], q, Dirty([tx], rs));
    mid, r := steps[1], rs[0];
    assert Added(cfg, steps[0], [tx][0], false, drops[0], steps[1], rs[0]);
    assert Dirty([tx], rs) == if r == Ok(false) then {tx.sender} else {};
  }

  lemma GapSeen(q: Pool, a: Address, low: Tx, high: Tx)
    requires high.nonce == low.nonce + 2 && q.state.Nonce(a) == low.nonce
    requires Of(q, a).pend == map[high.nonce := high, low.nonce := low] && Of(q, a).next == high.nonce + 1
    ensures !Contiguous(q)
  {
    assert low.nonce + 1 !in Of(q, a).pend;
    assert !Settled(Of(q, a), q.state.Nonce(a));
  }

  const HIGH := Tx(1, true, 2, 1, 21000, 0, false, [], 100)
  const LOW := HIGH.(nonce := 0)

  function Standing(nonce: nat): State { State(map[1 := nonce], map[1 := 100000], 100000) }

  /** Such a head does come to a pool: one transaction is submitted, executable, and the head after it
      takes the account two nonces back. */
  method GapRun(cfg: Config) returns (pool: TxPool, ghost before: Pool)
    requires cfg.accountSlots >= 2 && cfg.globalSlots + cfg.globalQueue >= 2
    ensures Contiguous(before) && Resets(cfg, [LOW], Standing(0), before, pool.Model()) && !Contiguous(pool.Model())
  {
    pool := new TxPool(cfg, 1, Standing(2));
    ghost var empty := pool.Model();
    Step(pool, AddRemote(HIGH), true);
    before := pool.Model();
    PoisedRun(cfg, empty, before);
    Step(pool, NewHead([LOW], Standing(0)), true);
    ReinjectionGap(cfg, before, Standing(0), LOW, HIGH, pool.Model());
  }

  lemma PoisedRun(cfg: Config, p: Pool, q: Pool)
    requires cfg.accountSlots >= 2 && cfg.globalSlots + cfg.globalQueue >= 2
    requires p == Pool(Standing(2), map[], map[], map[], {}, 1) && Submits(cfg, HIGH, false, p, q) && Inv(q)
    ensures Poised(cfg, q, Standing(0), LOW, HIGH)
  {
    HighValid(p);
    FirstShort(cfg, p, HIGH, q);
    assert |{HIGH}| == 1;
    LowValid(Rebased(q, Standing(0)));
  }

  lemma HighValid(p: Pool)
    requires p.state == Standing(2) && p.gasPrice == 1
    ensures Validate(p, HIGH, false).None?
  {
  }

  lemma LowValid(p: Pool)
    requires p.state == Standing(0) && p.gasPrice == 1
    ensures Validate(p, LOW, false).None?
  {
  }

  lemma FirstShort(cfg: Config, p: Pool, tx: Tx, q: Pool)
    requires cfg.accountSlots >= 1 && cfg.globalSlots + cfg.globalQueue >= 1
    requires p == Pool(p.state, map[], map[], map[], {}, p.gasPrice) && Validate(p, tx, false).None?
    requires tx.nonce == p.state.Nonce(tx.sender) && Submits(cfg, tx, false, p, q) && Inv(q)
    ensures Items(q.pending, tx.sender) == map[tx.nonce := tx] && tx.sender !in q.queue && SameRest(p, q)
    ensures Live(q) == {tx}
  {
    EmptyPool(p);
    var mid, r := Submission(cfg, p, tx, q);
    SubmittedShort(cfg, p, tx, mid, q, r);
    assert Items(q.queue, tx.sender) == Of(q, tx.sender).que == map[];
    assert Items(q.pending, tx.sender) == Of(q, tx.sender).pend;
    OnlyLive(q, tx);
  }

  lemma Submission(cfg: Config, p: Pool, tx: Tx, q: Pool) returns (mid: Pool, r: Result)
    requires Submits(cfg, tx, false, p, q)
    ensures exists drop :: Added(cfg, p, tx, false, drop, mid, r)
    ensures Promotes(cfg, mid, q, if r == Ok(false) then {tx.sender} else {})
  {
    var drop, m, res :|
      Added(cfg, p, tx, false, drop, m, res) && Promotes(cfg, m, q, if res == Ok(false) then {tx.sender} else {});
    mid, r := m, res;
  }

  lemma EmptyPool(p: Pool)
    requires p == Pool(p.state, map[], map[], map[], {}, p.gasPrice)
    ensures Inv(p) && Live(p) == {} && forall t :: !Pooled(p, t)
    ensures forall a :: Of(p, a) == Account(map[], map[], p.state.Nonce(a))
  {
  }

  lemma OnlyLive(q: Pool, tx: Tx)
    requires Inv(q) && Pooled(q, tx) && forall t :: Pooled(q, t) ==> t == tx
    ensures Live(q) == {tx}
  {
    LivePooled(q);
  }

  // ----- discarding what the state has passed -----

  /** A full pool, all of it remote, executable and passed by the state of the head that is due, and a
      transaction to be put back that is dearer than some of it. */
  ghost predicate Crowded(cfg: Config, p: Pool, s: State, tx: Tx) {
    && Inv(p) && Contiguous(p) && 0 < cfg.globalSlots + cfg.globalQueue <= |Live(p)|
    && (forall t :: t in Live(p) ==> t.sender !in p.locals && Outlived(p, s, t, t.sender))
    && tx !in Live(p) && Validate(Rebased(p, s), tx, false).None?
    && exists t :: t in Live(p) && t.price < tx.price
  }

  /** The head that puts that transaction back ends in a pool that is not contiguous. */
  lemma DiscardGap(cfg: Config, p: Pool, s: State, tx: Tx, q: Pool)
    requires Crowded(cfg, p, s, tx) && Resets(cfg, [tx], s, p, q)
    ensures !Contiguous(q)
  {
    var w := WayOf(cfg, [tx], s, p, q);
    assert Added(cfg, w.steps[0], [tx][0], false, w.drops[0], w.steps[1], w.rs[0]);
    var t := Discarded(cfg, p, s, tx, w.drops[0], w.steps[1], w.rs[0]);
    assert !NoneOutlived(p, s, w.drops[0], t.sender);
    assert !Spared(p, s, w.drops, 1, t.sender);
    DiscardBreaks(cfg, [tx], s, p, q, w, t.sender);
  }

  lemma Discarded(cfg: Config, p: Pool, s: State, tx: Tx, drop: seq<Tx>, q: Pool, r: Result) returns (t: Tx)
    requires Crowded(cfg, p, s, tx) && Added(cfg, Rebased(p, s), tx, false, drop, q, r)
    ensures t in drop && Outlived(p, s, t, t.sender)
  {
    var live, limit := Live(p), cfg.globalSlots + cfg.globalQueue;
    assert Live(Rebased(p, s)) == live;
    AddedFull(cfg, Rebased(p, s), tx, drop, q, r, live);
    t := Dropped(drop, live, |live| - (limit - 1), p.locals);
  }

  lemma AddedFull(cfg: Config, p: Pool, tx: Tx, drop: seq<Tx>, q: Pool, r: Result, live: set<Tx>)
    requires live == Live(p) && tx !in live && Validate(p, tx, false).None? && Added(cfg, p, tx, false, drop, q, r)
    requires |live| >= cfg.globalSlots + cfg.globalQueue && exists t :: t in live && t.price < tx.price
    ensures CheapestRemote(drop, live, |live| - (cfg.globalSlots + cfg.globalQueue - 1), p.locals)
  {
  }

  lemma Dropped(drop: seq<Tx>, live: set<Tx>, count: nat, locals: set<Address>) returns (t: Tx)
    requires CheapestRemote(drop, live, count, locals) && count > 0
    requires live != {} && forall t :: t in live ==> t.sender !in locals
    ensures t in drop && t in live
  {
    var some :| some in live;
    assert |drop| < count ==> some in drop;
    t := drop[0];
  }

  const CHEAP := Tx(1, true, 0, 1, 21000, 0, false, [], 100)
  const DEAR := Tx(2, true, 0, 2, 21000, 0, false, [], 100)

  function Passing(nonce: nat): State { State(map[1 := nonce], map[1 := 100000, 2 := 100000], 100000) }

  /** Such a head comes to a pool with room for one transaction: the one it holds is in the new chain, and
      another account's was in the old one. */
  method DiscardRun(cfg: Config) returns (pool: TxPool, ghost before: Pool)
    requires cfg.accountSlots >= 1 && cfg.globalSlots + cfg.globalQueue == 1
    ensures Contiguous(before) && Resets(cfg, [DEAR], Passing(1), before, pool.Model()) && !Contiguous(pool.Model())
  {
    pool := new TxPool(cfg, 1, Passing(0));
    ghost var empty := pool.Model();
    Step(pool, AddRemote(CHEAP), true);
    before := pool.Model();
    CrowdedRun(cfg, empty, before);
    Step(pool, NewHead([DEAR], Passing(1)), true);
    DiscardGap(cfg, before, Passing(1), DEAR, pool.Model());
  }

  lemma CrowdedRun(cfg: Config, p: Pool, q: Pool)
    requires cfg.accountSlots >= 1 && cfg.globalSlots + cfg.globalQueue == 1
    requires p == Pool(Passing(0), map[], map[], map[], {}, 1) && Submits(cfg, CHEAP, false, p, q)
    requires Inv(q) && Contiguous(q)
    ensures Crowded(cfg, q, Passing(1), DEAR)
  {
    CheapValid(p);
    FirstShort(cfg, p, CHEAP, q);
    CrowdedNow(cfg, q);
  }

  lemma CrowdedNow(cfg: Config, q: Pool)
    requires cfg.globalSlots + cfg.globalQueue == 1 && Inv(q) && Contiguous(q) && q.gasPrice == 1
    requires Live(q) == {CHEAP} && Items(q.pending, 1) == map[0 := CHEAP] && q.locals == {}
    ensures Crowded(cfg, q, Passing(1), DEAR)
  {
    DearValid(Rebased(q, Passing(1)));
    assert Has(q.pending, CHEAP);
    assert CHEAP in Live(q) && CHEAP.price < DEAR.price;
  }

  lemma CheapValid(p: Pool)
    requires p.state == Passing(0) && p.gasPrice == 1
    ensures Validate(p, CHEAP, false).None?
  {
  }

  lemma DearValid(p: Pool)
    requires p.state == Passing(1) && p.gasPrice == 1
    ensures Validate(p, DEAR, false).None?
  {
  }
}
