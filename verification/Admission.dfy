/** Admitting transactions to the pool (core/tx_pool.go), and what every operation keeps: contiguous
    executable nonces and the price floor. */
module Admission {
  import opened Types
  import opened Nonces
  import opened Lists
  import opened Gas
  import opened PoolModel
  import opened Truncation

  datatype Error =
    | KnownTransaction | OversizedData | NegativeValue | GasLimit | InvalidSender | Underpriced
    | NonceTooLow | InsufficientFunds | OutOfGas | IntrinsicGasTooLow | ReplaceUnderpriced

  datatype Result = Ok(replaced: bool) | Err(error: Error)

  /** validateTx: the first rule the transaction breaks, if any. */
  function Validate(p: Pool, tx: Tx, local: bool): Option<Error> {
    if tx.size > 32 * 1024 then Some(OversizedData)
    else if tx.value < 0 then Some(NegativeValue)
    else if p.state.maxGas < tx.gas then Some(GasLimit)
    else if !tx.signed then Some(InvalidSender)
    else if !local && tx.sender !in p.locals && p.gasPrice > tx.price then Some(Underpriced)
    else if p.state.Nonce(tx.sender) > tx.nonce then Some(NonceTooLow)
    else if p.state.Balance(tx.sender) < tx.Cost() then Some(InsufficientFunds)
    else if IntrinsicGas(tx.data, tx.create).None? then Some(OutOfGas)
    else if tx.gas < IntrinsicGas(tx.data, tx.create).value then Some(IntrinsicGasTooLow)
    else None
  }

  /** A transaction is valid exactly when it is small, signed, not negative, within the block's gas, at the
      floor or local, not outdated, payable in full, and brings its exact intrinsic gas. */
  lemma ValidIff(p: Pool, tx: Tx, local: bool)
    ensures Validate(p, tx, local).None? <==>
      && tx.size <= 32 * 1024 && tx.signed && tx.value >= 0
      && tx.gas <= p.state.maxGas
      && (local || tx.sender in p.locals || tx.price >= p.gasPrice)
      && p.state.Nonce(tx.sender) <= tx.nonce
      && tx.price * tx.gas + tx.value <= p.state.Balance(tx.sender)
      && ExactIntrinsicGas(tx.data, tx.create) <= tx.gas && ExactIntrinsicGas(tx.data, tx.create) <= MAX_UINT64
  {
  }

  /** Otherwise the answer is the first of these rules that it breaks. */
  lemma InvalidIff(p: Pool, tx: Tx, local: bool)
    ensures
      var e := Validate(p, tx, local);
      var small := tx.size <= 32 * 1024;
      var positive := small && tx.value >= 0;
      var within := positive && tx.gas <= p.state.maxGas;
      var signed := within && tx.signed;
      var priced := signed && (local || tx.sender in p.locals || tx.price >= p.gasPrice);
      var current := priced && tx.nonce >= p.state.Nonce(tx.sender);
      var paid := current && tx.price * tx.gas + tx.value <= p.state.Balance(tx.sender);
      var gas := ExactIntrinsicGas(tx.data, tx.create);
      && (e == Some(OversizedData) <==> !small)
      && (e == Some(NegativeValue) <==> small && !positive)
      && (e == Some(GasLimit) <==> positive && !within)
      && (e == Some(InvalidSender) <==> within && !signed)
      && (e == Some(Underpriced) <==> signed && !priced)
      && (e == Some(NonceTooLow) <==> priced && !current)
      && (e == Some(InsufficientFunds) <==> current && !paid)
      && (e == Some(OutOfGas) <==> paid && gas > MAX_UINT64)
      && (e == Some(IntrinsicGasTooLow) <==> paid && gas <= MAX_UINT64 && tx.gas < gas)
  {
  }

  /** Where a transaction goes: over an executable one of the same nonce, or into the queue. */
  function Placed(x: Account, tx: Tx): Account {
    if tx.nonce in x.pend then x.(pend := x.pend[tx.nonce := tx]) else x.(que := x.que[tx.nonce := tx])
  }

  /** Placing a validated transaction, unless one of the same nonce is not outbid. A local submission makes
      its sender local, except when it replaces an executable transaction. */
  function Admit(cfg: Config, p: Pool, tx: Tx, local: bool): (r: (Pool, Result)) {
    var x := Of(p, tx.sender);
    var q := Put(p, tx.sender, Placed(x, tx));
    if tx.nonce in x.pend then
      if Accepts(x.pend, tx, cfg.priceBump) then (q, Ok(true)) else (p, Err(ReplaceUnderpriced))
    else if Accepts(x.que, tx, cfg.priceBump) then
      (q.(locals := if local then p.locals + {tx.sender} else p.locals), Ok(tx.nonce in x.que))
    else (p, Err(ReplaceUnderpriced))
  }

  function RemoveTxs(p: Pool, txs: seq<Tx>): Pool {
    if txs == [] then p else RemoveTx(RemoveTxs(p, txs[..|txs| - 1]), txs[|txs| - 1])
  }

  /** Every pooled transaction of a remote account is priced at or above the floor. */
  ghost predicate Floor(p: Pool) {
    forall tx :: Pooled(p, tx) && tx.sender !in p.locals ==> tx.price >= p.gasPrice
  }

  /** The state can still take the transaction: its nonce has not passed, and the sender and the block can pay. */
  predicate Fits(s: State, tx: Tx) {
    tx.nonce >= s.Nonce(tx.sender) && tx.Cost() <= s.Balance(tx.sender) && tx.gas <= s.maxGas
  }

  /** Every pooled transaction still fits the state. */
  ghost predicate Affordable(p: Pool) {
    forall tx :: Pooled(p, tx) ==> Fits(p.state, tx)
  }

  ghost predicate ListFits(s: State, m: map<nat, Tx>) {
    forall n :: n in m ==> Fits(s, m[n])
  }

  /** Contiguous, except that the queues of some accounts have yet to be promoted. */
  ghost predicate ContiguousBut(p: Pool, dirty: set<Address>) {
    forall a ::
      if a in dirty then PendingInterval(Of(p, a), p.state.Nonce(a)) else Settled(Of(p, a), p.state.Nonce(a))
  }

  lemma {:induction false} RemoveTxsKeeps(p: Pool, txs: seq<Tx>, dirty: set<Address>)
    requires Inv(p)
    ensures Inv(RemoveTxs(p, txs)) && SameRest(p, RemoveTxs(p, txs))
    ensures forall t :: Pooled(RemoveTxs(p, txs), t) <==> Pooled(p, t) && t !in txs
    ensures ContiguousBut(p, dirty) ==> ContiguousBut(RemoveTxs(p, txs), dirty)
    decreases |txs|
  {
    if txs != [] {
      var k := |txs| - 1;
      var q := RemoveTxs(p, txs[..k]);
      RemoveTxsKeeps(p, txs[..k], dirty);
      RemoveTxContiguous(q, txs[k], dirty);
      RemoveLast(p, txs, k, q, RemoveTx(q, txs[k]));
    }
  }

  lemma RemoveLast(p: Pool, txs: seq<Tx>, k: nat, q: Pool, r: Pool)
    requires k + 1 == |txs| && Inv(q) && r == RemoveTx(q, txs[k])
    requires forall t :: Pooled(q, t) <==> Pooled(p, t) && t !in txs[..k]
    ensures Inv(r) && forall t :: Pooled(r, t) <==> Pooled(p, t) && t !in txs
  {
    RemoveTxPooled(q, txs[k]);
    assert txs == txs[..k] + [txs[k]];
  }

  lemma RemoveTxContiguous(p: Pool, tx: Tx, dirty: set<Address>)
    requires Inv(p)
    ensures SameRest(p, RemoveTx(p, tx))
    ensures ContiguousBut(p, dirty) ==> ContiguousBut(RemoveTx(p, tx), dirty)
  {
    if Pooled(p, tx) {
      var a := tx.sender;
      var x := Of(p, a);
      assert AccountOk(x, a);
      PutReads(p, a, Remove(x, tx.nonce));
      RemoveSettled(x, a, tx.nonce, p.state.Nonce(a));
    }
  }

  lemma PlacedIn(x: Account, a: Address, tx: Tx)
    requires AccountOk(x, a) && tx.sender == a
    ensures AccountOk(Placed(x, tx), a) && InAccount(Placed(x, tx), tx)
    ensures forall t :: InAccount(Placed(x, tx), t) && t != tx ==> InAccount(x, t)
    ensures forall t: Tx :: InAccount(x, t) && t.nonce != tx.nonce ==> InAccount(Placed(x, tx), t)
  {
  }

  lemma PlacedPooled(p: Pool, tx: Tx)
    requires Inv(p)
    ensures
      var q := Put(p, tx.sender, Placed(Of(p, tx.sender), tx));
      && Inv(q) && Pooled(q, tx)
      && (forall t :: Pooled(q, t) && t != tx ==> Pooled(p, t))
      && (forall t :: Pooled(p, t) && (t.sender != tx.sender || t.nonce != tx.nonce) ==> Pooled(q, t))
  {
    var a := tx.sender;
    var x := Of(p, a);
    assert AccountOk(x, a);
    PlacedIn(x, a, tx);
    PutOf(p, a, Placed(x, tx));
    forall t
      ensures Pooled(Put(p, a, Placed(x, tx)), t) <==>
        if t.sender == a then InAccount(Placed(x, tx), t) else Pooled(p, t)
    {
      PooledPut(p, a, Placed(x, tx), t);
    }
    forall t ensures Pooled(p, t) <==> InAccount(Of(p, t.sender), t) { PooledPut(p, a, x, t); }
  }

  /** The transaction of the same sender and nonce, if there is one. */
  function Displaced(x: Account, tx: Tx): set<Tx> {
    if tx.nonce in x.pend then {x.pend[tx.nonce]} else if tx.nonce in x.que then {x.que[tx.nonce]} else {}
  }

  /** Placing a transaction exchanges it for the one it displaces. */
  lemma PlacedExactly(p: Pool, tx: Tx, all: set<Tx>)
    requires Inv(p) && forall t :: t in all <==> Pooled(p, t)
    ensures
      var x := Of(p, tx.sender);
      forall t :: t in all - Displaced(x, tx) + {tx} <==> Pooled(Put(p, tx.sender, Placed(x, tx)), t)
  {
    var a := tx.sender;
    var x := Of(p, a);
    assert AccountOk(x, a);
    forall t ensures t in all - Displaced(x, tx) + {tx} <==> Pooled(Put(p, a, Placed(x, tx)), t) {
      PooledPut(p, a, Placed(x, tx), t);
    }
  }

  /** Admission keeps the lists apart, and adds its transaction in place of at most one. */
  lemma AdmitOk(cfg: Config, p: Pool, tx: Tx, local: bool)
    requires Inv(p)
    ensures
      var (q, r) := Admit(cfg, p, tx, local);
      && Inv(q) && q.state == p.state && q.gasPrice == p.gasPrice && p.locals <= q.locals
      && (r.Err? ==> q == p)
      && (r.Ok? ==> Pooled(q, tx))
      && (forall t :: Pooled(q, t) && t != tx ==> Pooled(p, t))
      && (forall t :: Pooled(p, t) && (t.sender != tx.sender || t.nonce != tx.nonce) ==> Pooled(q, t))
  {
    PlacedPooled(p, tx);
    InvLocals(Put(p, tx.sender, Placed(Of(p, tx.sender), tx)), p.locals + {tx.sender});
  }

  lemma InvLocals(p: Pool, locals: set<Address>)
    requires Inv(p)
    ensures Inv(p.(locals := locals)) && forall t :: Pooled(p.(locals := locals), t) <==> Pooled(p, t)
  {
    forall a ensures AccountOk(Of(p.(locals := locals), a), a) { assert AccountOk(Of(p, a), a); }
  }

  /** A locally submitted transaction may be cheap, but then its sender becomes local, unless it replaces an
      executable transaction, which it must outbid. */
  lemma AdmitFloor(cfg: Config, p: Pool, tx: Tx, local: bool)
    requires Inv(p) && Floor(p) && (local || tx.sender in p.locals || tx.price >= p.gasPrice)
    ensures Floor(Admit(cfg, p, tx, local).0)
  {
    AdmitOk(cfg, p, tx, local);
    var x := Of(p, tx.sender);
    assert AccountOk(x, tx.sender);
    if tx.nonce in x.pend { assert Pooled(p, x.pend[tx.nonce]); }
  }

  /** Only a transaction that replaces none leaves its sender to be promoted. */
  lemma AdmitContiguous(cfg: Config, p: Pool, tx: Tx, local: bool, dirty: set<Address>)
    requires Inv(p) && ContiguousBut(p, dirty)
    ensures
      var (q, r) := Admit(cfg, p, tx, local);
      ContiguousBut(q, if r == Ok(false) then dirty + {tx.sender} else dirty)
  {
    var a := tx.sender;
    var x := Of(p, a);
    var (q, r) := Admit(cfg, p, tx, local);
    if r.Ok? {
      PutReads(p, a, Placed(x, tx));
      SameAccounts(Put(p, a, Placed(x, tx)), q);
      PlacedSettled(x, tx, p.state.Nonce(a));
      ContiguousElsewhere(p, q, a, dirty, r == Ok(false));
    }
  }

  /** One account changed: the others are as contiguous as they were. */
  lemma ContiguousElsewhere(p: Pool, q: Pool, a: Address, dirty: set<Address>, gained: bool)
    requires ContiguousBut(p, dirty) && q.state == p.state && forall b :: b != a ==> Of(q, b) == Of(p, b)
    requires
      if a in dirty || gained then PendingInterval(Of(q, a), p.state.Nonce(a)) else Settled(Of(q, a), p.state.Nonce(a))
    ensures ContiguousBut(q, if gained then dirty + {a} else dirty)
  {
  }

  lemma SameAccounts(p: Pool, q: Pool)
    requires q == p.(locals := q.locals)
    ensures forall a :: Of(q, a) == Of(p, a)
  {
  }

  lemma PlacedSettled(x: Account, tx: Tx, stateNonce: nat)
    ensures PendingInterval(x, stateNonce) ==> PendingInterval(Placed(x, tx), stateNonce)
    ensures Settled(x, stateNonce) && (tx.nonce in x.pend || tx.nonce in x.que) ==> Settled(Placed(x, tx), stateNonce)
  {
  }

  // ----- promotion and its limits -----

  lemma PromoteIn(x: Account, a: Address, stateNonce: nat, balance: int, maxGas: nat, cap: Option<nat>)
    requires AccountOk(x, a)
    ensures forall tx :: InAccount(Promote(x, stateNonce, balance, maxGas, cap), tx) ==> InAccount(x, tx)
  {
    PayableSub(x.que, stateNonce, balance, maxGas);
    var y := x.(que := Payable(x.que, stateNonce, balance, maxGas));
    MoveReadyIn(y);
    CapIn(MoveReady(y), cap);
    forall tx | InAccount(y, tx) ensures InAccount(x, tx) { }
  }

  lemma CapIn(x: Account, cap: Option<nat>)
    requires Keyed(x.que)
    ensures forall tx :: InAccount(x.(que := CapTo(x.que, cap)), tx) ==> InAccount(x, tx)
  {
    CapSub(x.que, cap);
  }

  lemma {:induction false} TrimIn(x: Account, k: nat)
    ensures forall tx :: InAccount(TrimTo(x, k), tx) ==> InAccount(x, tx)
    decreases |x.pend|
  {
    if |x.pend| > k {
      DropSize(x.pend, Highest(x.pend));
      TrimIn(CutLast(x), k);
    }
  }

  lemma KeepIn(x: Account, k: nat)
    requires Keyed(x.que)
    ensures forall tx :: InAccount(x.(que := Keep(x.que, k)), tx) ==> InAccount(x, tx)
  {
    KeepIsLowest(x.que, k);
  }

  lemma PooledIn(p: Pool, tx: Tx)
    ensures Pooled(p, tx) <==> InAccount(Of(p, tx.sender), tx)
  {
  }

  /** promoteExecutables, from promotion through both limits, brings nothing new into an account. */
  lemma SettlesAccount(cfg: Config, p0: Pool, p1: Pool, p2: Pool, p: Pool, accounts: set<Address>, a: Address)
    requires Inv(p0) && Inv(p2) && Promoted(cfg, p0, p1, accounts) && Trimmed(p1, p2) && QueueTrimmed(p2, p)
    ensures forall tx :: InAccount(Of(p, a), tx) ==> InAccount(Of(p0, a), tx)
  {
    var x := Of(p0, a);
    assert AccountOk(x, a);
    PromoteIn(x, a, p0.state.Nonce(a), p0.state.Balance(a), p0.state.maxGas, QueueCap(cfg, p0, a));
    TrimIn(Of(p1, a), Len(p2, a));
    assert AccountOk(Of(p2, a), a);
    KeepIn(Of(p2, a), QueueLen(p, a));
  }

  /** promoteExecutables: the accounts promoted, then the executable lists cut fairly, then the queues cut. */
  ghost predicate Settles(cfg: Config, p0: Pool, p: Pool, accounts: set<Address>) {
    Bounded(cfg, p) && exists p1, p2 :: SettlesBy(cfg, p0, p1, p2, p, accounts)
  }

  /** The pools on the way: promoted, with the executable lists cut, with the queues cut. */
  ghost predicate SettlesBy(cfg: Config, p0: Pool, p1: Pool, p2: Pool, p: Pool, accounts: set<Address>) {
    && Inv(p1) && Inv(p2) && Promoted(cfg, p0, p1, accounts) && Fair(p1, p2, cfg.accountSlots) && QueueTrimmed(p2, p)
    && NeededCut(cfg, p1, p2) && NeededQueueCut(cfg, p2, p)
  }

  lemma SettlesPooled(cfg: Config, p0: Pool, p: Pool, accounts: set<Address>)
    requires Inv(p0) && Settles(cfg, p0, p, accounts)
    ensures forall tx :: Pooled(p, tx) ==> Pooled(p0, tx)
    ensures (Floor(p0) ==> Floor(p)) && (Affordable(p0) ==> Affordable(p))
  {
    var p1, p2 :| SettlesBy(cfg, p0, p1, p2, p, accounts);
    forall tx | Pooled(p, tx) ensures Pooled(p0, tx) {
      PooledIn(p, tx);
      PooledIn(p0, tx);
      SettlesAccount(cfg, p0, p1, p2, p, accounts, tx.sender);
    }
  }

  /** Promoting every account that needs it leaves a contiguous pool. */
  lemma SettlesContiguous(cfg: Config, p0: Pool, p: Pool, accounts: set<Address>)
    requires Inv(p0) && Settles(cfg, p0, p, accounts) && ContiguousBut(p0, accounts)
    ensures Contiguous(p)
  {
    var p1, p2 :| SettlesBy(cfg, p0, p1, p2, p, accounts);
    forall a ensures Settled(Of(p, a), p.state.Nonce(a)) {
      SettlesOne(cfg, p0, p1, p2, p, accounts, a);
    }
  }

  lemma SettlesOne(cfg: Config, p0: Pool, p1: Pool, p2: Pool, p: Pool, accounts: set<Address>, a: Address)
    requires Inv(p0) && Inv(p2) && Promoted(cfg, p0, p1, accounts) && Trimmed(p1, p2) && QueueTrimmed(p2, p)
    requires
      if a in accounts then PendingInterval(Of(p0, a), p0.state.Nonce(a)) else Settled(Of(p0, a), p0.state.Nonce(a))
    ensures Settled(Of(p, a), p.state.Nonce(a))
  {
    var sn := p0.state.Nonce(a);
    assert AccountOk(Of(p0, a), a);
    if a in accounts {
      PromoteSettles(Of(p0, a), a, sn, p0.state.Balance(a), p0.state.maxGas, QueueCap(cfg, p0, a));
    }
    assert Settled(Of(p1, a), sn);
    TrimSettled(Of(p1, a), Len(p2, a), sn);
    assert Settled(Of(p2, a), sn);
    assert AccountOk(Of(p2, a), a);
    KeepIsLowest(Of(p2, a).que, QueueLen(p, a));
  }

  /** Making room and placing a transaction keeps the floor, and contiguity up to its sender. */
  lemma AddKeeps(cfg: Config, p: Pool, drop: seq<Tx>, tx: Tx, local: bool, dirty: set<Address>)
    requires Inv(p) && Validate(p, tx, local).None?
    ensures
      var (q, r) := Admit(cfg, RemoveTxs(p, drop), tx, local);
      && (Floor(p) ==> Floor(q))
      && (Affordable(p) ==> Affordable(q))
      && (ContiguousBut(p, dirty) ==> ContiguousBut(q, if r == Ok(false) then dirty + {tx.sender} else dirty))
  {
    RemoveTxsKeeps(p, drop, dirty);
    var p' := RemoveTxs(p, drop);
    AdmitOk(cfg, p', tx, local);
    if Floor(p) { AdmitFloor(cfg, p', tx, local); }
    if ContiguousBut(p, dirty) { AdmitContiguous(cfg, p', tx, local, dirty); }
    AdmitAffordable(p, p', tx, Admit(cfg, p', tx, local).0);
  }

  lemma AdmitAffordable(p: Pool, p': Pool, tx: Tx, q: Pool)
    requires q.state == p'.state == p.state && Fits(p.state, tx)
    requires forall t :: Pooled(p', t) ==> Pooled(p, t)
    requires forall t :: Pooled(q, t) && t != tx ==> Pooled(p', t)
    ensures Affordable(p) ==> Affordable(q)
  {
  }

  /** A reset that re-injects nothing turns a contiguous pool into one that only needs promoting, whatever the
      new state is: the pool `p0` gets the state, is demoted, and its virtual nonces follow. */
  lemma ResetContiguous(p0: Pool, s: State, p2: Pool, p3: Pool)
    requires Contiguous(p0) && Demoted(Rebased(p0, s), p2) && Followed(p2, p3)
    ensures ContiguousBut(p3, p3.queue.Keys)
  {
    forall a ensures PendingInterval(Of(p3, a), s.Nonce(a)) {
      var x := Of(Rebased(p0, s), a);
      assert Settled(Of(p0, a), p0.state.Nonce(a));
      assert x == Of(p0, a).(next := s.Nonce(a));
      DemoteInterval(x, p0.state.Nonce(a), Of(p0, a).next, s.Nonce(a), s.Balance(a), s.maxGas);
    }
  }

  /** The pool with a new chain state, before it has reacted to it. */
  function Rebased(p: Pool, s: State): Pool { p.(state := s, next := map[]) }

  lemma DemoteFits(p: Pool, a: Address)
    requires Inv(p)
    ensures ListFits(p.state, DemoteOf(p, a).pend)
  {
    var x := Of(p, a);
    assert AccountOk(x, a);
    ScanSound(true, AtLeast(x.pend, p.state.Nonce(a)), p.state.Balance(a), p.state.maxGas);
  }

  lemma PromoteFits(cfg: Config, p: Pool, a: Address)
    requires Inv(p) && ListFits(p.state, Of(p, a).pend)
    ensures ListFits(p.state, PromoteOf(cfg, p, a).pend) && ListFits(p.state, PromoteOf(cfg, p, a).que)
  {
    var x := Of(p, a);
    assert AccountOk(x, a);
    PayableSub(x.que, p.state.Nonce(a), p.state.Balance(a), p.state.maxGas);
    var payable := Payable(x.que, p.state.Nonce(a), p.state.Balance(a), p.state.maxGas);
    assert ListFits(p.state, payable);
    MoveFits(p.state, x.(que := payable));
    CapSub(MoveReady(x.(que := payable)).que, QueueCap(cfg, p, a));
  }

  lemma MoveFits(s: State, x: Account)
    requires ListFits(s, x.pend) && ListFits(s, x.que)
    ensures ListFits(s, MoveReady(x).pend) && ListFits(s, MoveReady(x).que) && Sub(MoveReady(x).que, x.que)
  {
  }

  /** When every queue is promoted, payable executable lists are enough to make the whole pool affordable. */
  lemma SettlesAffordable(cfg: Config, p0: Pool, p: Pool, accounts: set<Address>)
    requires Inv(p0) && Settles(cfg, p0, p, accounts) && p0.queue.Keys <= accounts
    requires forall a :: ListFits(p0.state, Of(p0, a).pend)
    ensures Affordable(p)
  {
    var p1, p2 :| SettlesBy(cfg, p0, p1, p2, p, accounts);
    forall tx | Pooled(p, tx) ensures Fits(p.state, tx) {
      PooledIn(p, tx);
      SettlesFits(cfg, p0, p1, p2, p, accounts, tx);
    }
  }

  lemma SettlesFits(cfg: Config, p0: Pool, p1: Pool, p2: Pool, p: Pool, accounts: set<Address>, tx: Tx)
    requires Inv(p0) && Inv(p2) && Promoted(cfg, p0, p1, accounts) && Trimmed(p1, p2) && QueueTrimmed(p2, p)
    requires p0.queue.Keys <= accounts && ListFits(p0.state, Of(p0, tx.sender).pend) && InAccount(Of(p, tx.sender), tx)
    ensures Fits(p.state, tx)
  {
    var a := tx.sender;
    assert AccountOk(Of(p2, a), a);
    TrimmedIn(p1, p2, p, a, tx);
    if a in accounts { PromoteFits(cfg, p0, a); } else { assert Of(p1, a).que == map[]; }
  }

  /** Truncation adds nothing to an account. */
  lemma TrimmedIn(p1: Pool, p2: Pool, p: Pool, a: Address, tx: Tx)
    requires Trimmed(p1, p2) && QueueTrimmed(p2, p) && AccountOk(Of(p2, a), a) && InAccount(Of(p, a), tx)
    ensures InAccount(Of(p1, a), tx)
  {
    KeepIn(Of(p2, a), QueueLen(p, a));
    TrimIn(Of(p1, a), Len(p2, a));
  }
}
