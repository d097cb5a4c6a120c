/** What the pool's operations promise (core/tx_pool.go), in terms of the transactions that go in, stay and
    leave: who is admitted, who is dropped for what limit, and who counts as local. */
module PoolLaws {
  import opened Types
  import opened Nonces
  import opened Lists
  import opened PoolModel
  import opened Truncation
  import opened Admission
  import opened PoolSteps
  import opened Runs
  import opened Reinjection
  import Priced
  import Roomy

  // ----- admission -----

  /** A transaction under a free nonce gets in. Under a taken one it gets in exactly when it outbids the one
      there, by more than the price bump less the rounding. */
  lemma AdmitIff(cfg: Config, p: Pool, tx: Tx, local: bool)
    requires Inv(p)
    ensures
      var x, r := Of(p, tx.sender), Admit(cfg, p, tx, local).1;
      if tx.nonce !in x.pend && tx.nonce !in x.que then r == Ok(false)
      else
        var cur := if tx.nonce in x.pend then x.pend[tx.nonce] else x.que[tx.nonce];
        && (r == Ok(true) <==> tx.price > cur.price && 100 * (tx.price + 1) > cur.price * (100 + cfg.priceBump))
        && (r != Ok(true) ==> r == Err(ReplaceUnderpriced))
  {
    AcceptsIff(Of(p, tx.sender).pend, tx, cfg.priceBump);
    AcceptsIff(Of(p, tx.sender).que, tx, cfg.priceBump);
  }

  /** An admitted transaction takes the place of the one with its sender and nonce, in the same list, and the
      queue if there was none. Its sender becomes local if it was submitted locally and replaced nothing
      executable. */
  lemma AdmitExactly(cfg: Config, p: Pool, tx: Tx, local: bool)
    requires Inv(p) && Admit(cfg, p, tx, local).1.Ok?
    ensures
      var x, q := Of(p, tx.sender), Admit(cfg, p, tx, local).0;
      && (forall t :: Pooled(q, t) <==> t == tx || (Pooled(p, t) && !(t.sender == tx.sender && t.nonce == tx.nonce)))
      && (Has(q.pending, tx) <==> tx.nonce in x.pend)
      && (forall a :: NextNonce(q, a) == NextNonce(p, a))
      && q.locals == p.locals + if local && tx.nonce !in x.pend then {tx.sender} else {}
  {
    var a, q := tx.sender, Admit(cfg, p, tx, local).0;
    var x := Of(p, a);
    assert AccountOk(x, a);
    PutReads(p, a, Placed(x, tx));
    SameAccounts(Put(p, a, Placed(x, tx)), q);
    forall t ensures Pooled(q, t) <==> t == tx || (Pooled(p, t) && !(t.sender == tx.sender && t.nonce == tx.nonce)) {
      PooledIn(p, t);
      PooledIn(q, t);
      if t.sender == a { PlacedExact(x, a, tx, t); }
    }
  }

  lemma PlacedExact(x: Account, a: Address, tx: Tx, t: Tx)
    requires AccountOk(x, a) && tx.sender == t.sender == a
    ensures InAccount(Placed(x, tx), t) <==> t == tx || (InAccount(x, t) && t.nonce != tx.nonce)
  {
  }

  /** The pool that `add` places a transaction in: what it was, less the discarded. */
  lemma AddedPlaces(cfg: Config, p: Pool, tx: Tx, local: bool, drop: seq<Tx>, q: Pool, r: Result)
    requires Inv(p) && Added(cfg, p, tx, local, drop, q, r)
    ensures
      var mid := RemoveTxs(p, drop);
      && Inv(mid) && SameRest(p, mid) && (forall t :: Pooled(mid, t) <==> Pooled(p, t) && t !in drop)
      && (r.Ok? ==> (q, r) == Admit(cfg, mid, tx, local))
  {
    RemoveTxsKeeps(p, drop, {});
  }

  /** add accepts exactly a new and valid transaction that, in a full pool, is local or dearer than some pooled
      one, and that outbids what holds its nonce, unless that was just discarded. */
  lemma AcceptedIff(cfg: Config, p: Pool, tx: Tx, local: bool, drop: seq<Tx>, q: Pool, r: Result)
    requires Inv(p) && Added(cfg, p, tx, local, drop, q, r)
    ensures r.Ok? <==>
      && !Pooled(p, tx)
      && Validate(p, tx, local).None?
      && (|Live(p)| < cfg.globalSlots + cfg.globalQueue || Live(p) == {} || local || tx.sender in p.locals ||
          exists t :: Pooled(p, t) && t.price < tx.price)
      && (forall t :: Pooled(p, t) && t.sender == tx.sender && t.nonce == tx.nonce && t !in drop ==>
            tx.price > t.price && 100 * (tx.price + 1) > t.price * (100 + cfg.priceBump))
  {
    LivePooled(p);
    if tx !in Live(p) && Validate(p, tx, local).None? {
      AddedPlaces(cfg, p, tx, local, drop, q, r);
      OutbidIff(cfg, RemoveTxs(p, drop), tx, local);
    }
  }

  lemma OutbidIff(cfg: Config, p: Pool, tx: Tx, local: bool)
    requires Inv(p)
    ensures Admit(cfg, p, tx, local).1.Ok? <==>
      forall t :: Pooled(p, t) && t.sender == tx.sender && t.nonce == tx.nonce ==>
        tx.price > t.price && 100 * (tx.price + 1) > t.price * (100 + cfg.priceBump)
  {
    var x := Of(p, tx.sender);
    assert AccountOk(x, tx.sender);
    AdmitIff(cfg, p, tx, local);
    if tx.nonce in x.pend {
      assert Pooled(p, x.pend[tx.nonce]);
    } else if tx.nonce in x.que {
      assert Pooled(p, x.que[tx.nonce]);
    }
  }

  /** An accepted transaction is added to what was there, less what was discarded for it and less the one it
      replaced. Nothing is discarded below the limit, and never a transaction of a local account. */
  lemma AcceptedExactly(cfg: Config, p: Pool, tx: Tx, local: bool, drop: seq<Tx>, q: Pool, r: Result)
    requires Inv(p) && Added(cfg, p, tx, local, drop, q, r) && r.Ok?
    ensures forall t :: Pooled(q, t) <==>
      t == tx || (Pooled(p, t) && t !in drop && !(t.sender == tx.sender && t.nonce == tx.nonce))
    ensures forall t :: t in drop ==> Pooled(p, t) && !(t.signed && t.sender in p.locals)
    ensures |Live(p)| < cfg.globalSlots + cfg.globalQueue ==> drop == []
  {
    LivePooled(p);
    AddedPlaces(cfg, p, tx, local, drop, q, r);
    AdmitExactly(cfg, RemoveTxs(p, drop), tx, local);
  }

  /** In a full pool the discarded are the cheapest of the remote ones, of equal price those of the highest
      nonces, and no more than the pool is over the limit with the new one. */
  lemma DiscardExactly(cfg: Config, p: Pool, tx: Tx, local: bool, drop: seq<Tx>, q: Pool, r: Result)
    requires Inv(p) && Added(cfg, p, tx, local, drop, q, r) && r.Ok?
    requires |Live(p)| >= cfg.globalSlots + cfg.globalQueue
    ensures forall t, u :: t in drop && Pooled(p, u) && u !in drop && !(u.signed && u.sender in p.locals) ==>
      t.price < u.price || (t.price == u.price && t.nonce >= u.nonce)
    ensures |drop| <= |Live(p)| + 1 - (cfg.globalSlots + cfg.globalQueue)
    ensures |drop| < |Live(p)| + 1 - (cfg.globalSlots + cfg.globalQueue) ==>
      forall t :: Pooled(p, t) && !(t.signed && t.sender in p.locals) ==> t in drop
  {
    LivePooled(p);
    AddedDiscards(cfg, p, tx, local, drop, q, r);
    CheapestIs(drop, Live(p), |Live(p)| + 1 - (cfg.globalSlots + cfg.globalQueue), p.locals);
  }

  lemma AddedDiscards(cfg: Config, p: Pool, tx: Tx, local: bool, drop: seq<Tx>, q: Pool, r: Result)
    requires Added(cfg, p, tx, local, drop, q, r) && r.Ok? && |Live(p)| >= cfg.globalSlots + cfg.globalQueue
    ensures CheapestRemote(drop, Live(p), |Live(p)| + 1 - (cfg.globalSlots + cfg.globalQueue), p.locals)
  {
  }

  lemma CheapestIs(drop: seq<Tx>, live: set<Tx>, count: int, locals: set<Address>)
    requires CheapestRemote(drop, live, count, locals) && count > 0
    ensures |drop| <= count
    ensures forall t, u :: t in drop && u in live && u !in drop && !(u.signed && u.sender in locals) ==>
      t.price < u.price || (t.price == u.price && t.nonce >= u.nonce)
    ensures |drop| < count ==> forall t :: t in live && !(t.signed && t.sender in locals) ==> t in drop
  {
  }

  /** With none discarded twice, they bring the pool back to the limit, unless that leaves only local ones
      beside the new one. */
  lemma DiscardSuffices(cfg: Config, p: Pool, tx: Tx, local: bool, drop: seq<Tx>, q: Pool, r: Result)
    requires Inv(p) && Added(cfg, p, tx, local, drop, q, r) && r.Ok?
    requires forall i, j :: 0 <= i < j < |drop| ==> drop[i] != drop[j]
    ensures
      || |Live(q)| <= cfg.globalSlots + cfg.globalQueue
      || forall t :: Pooled(q, t) && t != tx ==> t.signed && t.sender in p.locals
  {
    AcceptedExactly(cfg, p, tx, local, drop, q, r);
    AcceptedSize(cfg, p, tx, local, drop, q, r);
    DistinctSize(drop);
    if |Live(p)| >= cfg.globalSlots + cfg.globalQueue {
      DiscardExactly(cfg, p, tx, local, drop, q, r);
    }
  }

  /** A pool within its limit stays within it, unless that leaves only local ones beside the new one. */
  lemma StaysWithin(cfg: Config, p: Pool, tx: Tx, local: bool, drop: seq<Tx>, q: Pool, r: Result)
    requires Inv(p) && Added(cfg, p, tx, local, drop, q, r) && |Live(p)| <= cfg.globalSlots + cfg.globalQueue
    ensures
      || |Live(q)| <= cfg.globalSlots + cfg.globalQueue
      || forall t :: Pooled(q, t) && t != tx ==> t.signed && t.sender in p.locals
  {
    if r.Ok? {
      if |Live(p)| < cfg.globalSlots + cfg.globalQueue {
        AcceptedExactly(cfg, p, tx, local, drop, q, r);
      } else {
        DiscardExactly(cfg, p, tx, local, drop, q, r);
      }
      DiscardSuffices(cfg, p, tx, local, drop, q, r);
    } else {
      AddedOne(cfg, p, tx, local, drop, q, r);
      Roomy.FewerLive(p, q);
    }
  }

  /** Adding makes the pool larger by one, less the one replaced and the different ones discarded. */
  lemma AcceptedSize(cfg: Config, p: Pool, tx: Tx, local: bool, drop: seq<Tx>, q: Pool, r: Result)
    requires Inv(p) && Added(cfg, p, tx, local, drop, q, r) && r.Ok?
    ensures |Live(q)| == |Live(p)| - |set t | t in drop| + if r.replaced then 0 else 1
  {
    var mid, gone := RemoveTxs(p, drop), set t | t in drop;
    RemainingLive(cfg, p, tx, local, drop, q, r);
    Part(Live(p), gone);
    AdmittedSize(cfg, mid, tx, local, q, r);
  }

  lemma RemainingLive(cfg: Config, p: Pool, tx: Tx, local: bool, drop: seq<Tx>, q: Pool, r: Result)
    requires Inv(p) && Added(cfg, p, tx, local, drop, q, r) && r.Ok?
    ensures
      var mid, gone := RemoveTxs(p, drop), set t | t in drop;
      && Inv(mid) && (q, r) == Admit(cfg, mid, tx, local)
      && gone <= Live(p) && Live(mid) == Live(p) - gone && tx !in Live(p)
  {
    AddedPlaces(cfg, p, tx, local, drop, q, r);
    AcceptedExactly(cfg, p, tx, local, drop, q, r);
    LivePooled(p);
    LiveIsPooled(RemoveTxs(p, drop), Live(p) - set t | t in drop);
  }

  lemma Part(all: set<Tx>, part: set<Tx>)
    requires part <= all
    ensures |all - part| == |all| - |part|
  {
  }

  lemma Exchanged(all: set<Tx>, out: set<Tx>, tx: Tx, now: set<Tx>)
    requires out <= all && tx !in all && now == all - out + {tx}
    ensures |now| == |all| - |out| + 1
  {
    Part(all, out);
  }

  lemma AdmittedSize(cfg: Config, p: Pool, tx: Tx, local: bool, q: Pool, r: Result)
    requires Inv(p) && (q, r) == Admit(cfg, p, tx, local) && r.Ok? && tx !in Live(p)
    ensures |Live(q)| == |Live(p)| + if r.replaced then 0 else 1
  {
    DisplacedLive(p, tx);
    AdmittedLive(cfg, p, tx, local, q, r);
    DisplacedOne(cfg, p, tx, local);
    Exchanged(Live(p), Displaced(Of(p, tx.sender), tx), tx, Live(q));
  }

  lemma DisplacedOne(cfg: Config, p: Pool, tx: Tx, local: bool)
    ensures
      var r := Admit(cfg, p, tx, local).1;
      r.Ok? ==> |Displaced(Of(p, tx.sender), tx)| == if r.replaced then 1 else 0
  {
  }

  lemma DisplacedLive(p: Pool, tx: Tx)
    requires Inv(p)
    ensures Displaced(Of(p, tx.sender), tx) <= Live(p)
  {
    LivePooled(p);
    assert AccountOk(Of(p, tx.sender), tx.sender);
  }

  lemma AdmittedLive(cfg: Config, p: Pool, tx: Tx, local: bool, q: Pool, r: Result)
    requires Inv(p) && (q, r) == Admit(cfg, p, tx, local) && r.Ok?
    ensures Live(q) == Live(p) - Displaced(Of(p, tx.sender), tx) + {tx}
  {
    LivePooled(p);
    PlacedExactly(p, tx, Live(p));
    PlacedPooled(p, tx);
    LiveIsPooled(Put(p, tx.sender, Placed(Of(p, tx.sender), tx)), Live(p) - Displaced(Of(p, tx.sender), tx) + {tx});
  }

  lemma {:induction false} DistinctSize(s: seq<Tx>)
    requires forall i, j :: 0 <= i < j < |s| ==> s[i] != s[j]
    ensures |set t | t in s| == |s|
    decreases |s|
  {
    if s != [] {
      var k := |s| - 1;
      DistinctSize(s[..k]);
      assert (set t | t in s) == (set t | t in s[..k]) + {s[k]};
    }
  }

  // ----- promotion and the limits -----

  /** Promotion drops exactly the queued transactions that do not fit the state, and from a remote account over
      its limit those of the highest nonces. It moves the lowest and keeps what was executable. */
  lemma PromoteExactly(cfg: Config, p: Pool, a: Address)
    requires Inv(p)
    ensures
      var x, y := Of(p, a), PromoteOf(cfg, p, a);
      && (forall t :: InAccount(y, t) ==> InAccount(x, t) && (t.nonce in x.que ==> Fits(p.state, t)))
      && Sub(x.pend, y.pend) && Sub(y.que, x.que)
      && (forall n, k :: n in y.pend && n !in x.pend && k in y.que ==> n < k)
      && (a !in p.locals ==> |y.que| <= cfg.accountQueue)
      && (forall t :: InAccount(x, t) && Fits(p.state, t) && !InAccount(y, t) ==>
            a !in p.locals && |y.que| == cfg.accountQueue && forall k :: k in y.que ==> k < t.nonce)
  {
    var x := Of(p, a);
    assert AccountOk(x, a);
    var payable := Payable(x.que, p.state.Nonce(a), p.state.Balance(a), p.state.maxGas);
    PayableIff(p, a, payable);
    var m := MoveReady(x.(que := payable));
    MoveExactly(p.state, x, a, payable, m);
    if a !in p.locals {
      CapExactly(m, cfg.accountQueue, PromoteOf(cfg, p, a));
    }
  }

  lemma MoveExactly(s: State, x: Account, a: Address, payable: map<nat, Tx>, m: Account)
    requires AccountOk(x, a) && Sub(payable, x.que) && m == MoveReady(x.(que := payable))
    requires forall n :: n in x.que ==> (n in payable <==> Fits(s, x.que[n]))
    ensures forall t :: InAccount(m, t) <==> InAccount(x, t) && (t.nonce in x.que ==> Fits(s, t))
    ensures Sub(x.pend, m.pend) && Sub(m.que, x.que) && Keyed(m.que)
    ensures forall n, k :: n in m.pend && n !in x.pend && k in m.que ==> n < k
  {
    MoveReadyIn(x.(que := payable));
    forall t ensures InAccount(x.(que := payable), t) <==> InAccount(x, t) && (t.nonce in x.que ==> Fits(s, t)) {
    }
  }

  lemma CapExactly(m: Account, k: nat, y: Account)
    requires Keyed(m.que) && y == m.(que := Keep(m.que, k))
    ensures Sub(y.que, m.que) && |y.que| <= k
    ensures forall t :: InAccount(y, t) ==> InAccount(m, t)
    ensures forall t :: InAccount(m, t) && !InAccount(y, t) ==> |y.que| == k && forall n :: n in y.que ==> n < t.nonce
  {
    KeepIsLowest(m.que, k);
  }

  lemma PayableIff(p: Pool, a: Address, payable: map<nat, Tx>)
    requires AccountOk(Of(p, a), a)
    requires payable == Payable(Of(p, a).que, p.state.Nonce(a), p.state.Balance(a), p.state.maxGas)
    ensures Sub(payable, Of(p, a).que)
    ensures forall n :: n in Of(p, a).que ==> (n in payable <==> Fits(p.state, Of(p, a).que[n]))
  {
  }

  lemma {:induction false} TrimLowest(x: Account, k: nat)
    ensures Sub(TrimTo(x, k).pend, x.pend)
    ensures forall n, d :: n in TrimTo(x, k).pend && d in x.pend && d !in TrimTo(x, k).pend ==> n < d
    decreases |x.pend|
  {
    if |x.pend| > k {
      DropSize(x.pend, Highest(x.pend));
      TrimLowest(CutLast(x), k);
    }
  }

  /** The two limits cut from the top. */
  lemma CutExactly(y: Account, w: Account, len: nat, k: nat)
    requires Keyed(y.que) && w == TrimTo(y, len).(que := Keep(y.que, k))
    ensures Sub(w.pend, y.pend) && Sub(w.que, y.que) && |w.que| <= |y.que|
    ensures forall n, d :: n in w.pend && d in y.pend && d !in w.pend ==> n < d
    ensures forall n, d :: n in w.que && d in y.que && d !in w.que ==> n < d
  {
    TrimLowest(y, len);
    KeepIsLowest(y.que, k);
  }

  /** An account on its way through promoteExecutables: promoted, then cut. */
  lemma SettlesVia(cfg: Config, p0: Pool, p: Pool, accounts: set<Address>, a: Address)
    returns (y: Account, len: nat, k: nat)
    requires Settles(cfg, p0, p, accounts) && a in accounts
    ensures SameRest(p0, p) && y == PromoteOf(cfg, p0, a) && AccountOk(y, a)
    ensures Of(p, a) == TrimTo(y, len).(que := Keep(y.que, k))
    ensures a in p.locals ==> Of(p, a) == y
    ensures Of(p, a).pend != y.pend ==> |Of(p, a).pend| >= cfg.accountSlots
    ensures Of(p, a).que != y.que ==> Total(p.queue) >= cfg.globalQueue
  {
    var p1, p2 :| SettlesBy(cfg, p0, p1, p2, p, accounts);
    SettlesThrough(cfg, p0, p1, p2, p, accounts, a);
    y, len, k := Of(p1, a), Len(p2, a), QueueLen(p, a);
  }

  lemma SettlesThrough(cfg: Config, p0: Pool, p1: Pool, p2: Pool, p: Pool, accounts: set<Address>, a: Address)
    requires SettlesBy(cfg, p0, p1, p2, p, accounts) && a in accounts
    ensures SameRest(p0, p) && Of(p1, a) == PromoteOf(cfg, p0, a) && AccountOk(Of(p1, a), a)
    ensures Of(p, a) == TrimTo(Of(p1, a), Len(p2, a)).(que := Keep(Of(p1, a).que, QueueLen(p, a)))
    ensures a in p.locals ==> Of(p, a) == Of(p1, a)
    ensures Of(p, a).pend != Of(p1, a).pend ==> |Of(p, a).pend| >= cfg.accountSlots
    ensures Of(p, a).que != Of(p1, a).que ==> Total(p.queue) >= cfg.globalQueue
  {
    TrimSize(Of(p1, a), Len(p2, a));
  }

  lemma CutIn(y: Account, w: Account)
    requires Sub(w.pend, y.pend) && Sub(w.que, y.que)
    ensures forall t :: InAccount(w, t) ==> InAccount(y, t)
  {
  }

  /** After promoteExecutables no remote account it was called for queues more than its limit, and of every
      account it was called for only transactions that fit the state, or were executable, are left. */
  lemma SettlesWithin(cfg: Config, p0: Pool, p: Pool, accounts: set<Address>, a: Address)
    requires Inv(p0) && Settles(cfg, p0, p, accounts) && a in accounts
    ensures a !in p.locals ==> |Of(p, a).que| <= cfg.accountQueue
    ensures forall t :: InAccount(Of(p, a), t) ==>
      InAccount(Of(p0, a), t) && (t.nonce in Of(p0, a).que ==> Fits(p0.state, t))
  {
    var y, len, k := SettlesVia(cfg, p0, p, accounts, a);
    PromoteExactly(cfg, p0, a);
    CutExactly(y, Of(p, a), len, k);
    CutIn(y, Of(p, a));
  }

  /** A local account loses nothing to any limit: it keeps exactly what was executable or fits the state. */
  lemma SettlesLocal(cfg: Config, p0: Pool, p: Pool, accounts: set<Address>, a: Address)
    requires Inv(p0) && Settles(cfg, p0, p, accounts) && a in accounts && a in p.locals
    ensures forall t :: InAccount(Of(p, a), t) <==>
      InAccount(Of(p0, a), t) && (t.nonce in Of(p0, a).que ==> Fits(p0.state, t))
  {
    var y, _, _ := SettlesVia(cfg, p0, p, accounts, a);
    assert AccountOk(Of(p0, a), a);
    PromoteExactly(cfg, p0, a);
    LosesNothing(p0.state, Of(p0, a), y);
  }

  lemma LosesNothing(s: State, x: Account, y: Account)
    requires Sub(x.pend, y.pend) && forall t :: InAccount(x, t) && Fits(s, t) ==> InAccount(y, t)
    ensures forall t :: InAccount(x, t) && (t.nonce in x.que ==> Fits(s, t)) ==> InAccount(y, t)
  {
  }

  /** What a remote account loses although it fits the state lies above everything the account keeps queued,
      and then its queue is at its limit or all queues together are at theirs; or it lies above everything the
      account keeps executable, which is then no less than its slots, and if it was queued below everything
      that still is. */
  lemma SettlesLoses(cfg: Config, p0: Pool, p: Pool, accounts: set<Address>, a: Address, t: Tx)
    requires Inv(p0) && Settles(cfg, p0, p, accounts) && a in accounts
    requires InAccount(Of(p0, a), t) && Fits(p0.state, t) && !InAccount(Of(p, a), t)
    ensures a !in p.locals
    ensures
      || ((forall k :: k in Of(p, a).que ==> k < t.nonce) &&
          (|Of(p, a).que| == cfg.accountQueue || Total(p.queue) >= cfg.globalQueue))
      || ((forall k :: k in Of(p, a).pend ==> k < t.nonce) && |Of(p, a).pend| >= cfg.accountSlots &&
          (t.nonce in Of(p0, a).que ==> forall k :: k in Of(p, a).que ==> t.nonce < k))
  {
    var y, len, k := SettlesVia(cfg, p0, p, accounts, a);
    LosesVia(cfg, p0, a, t, y, Of(p, a), len, k, Total(p.queue) >= cfg.globalQueue);
  }

  lemma LosesVia(cfg: Config, p: Pool, a: Address, t: Tx, y: Account, w: Account, len: nat, k: nat, full: bool)
    requires Inv(p) && InAccount(Of(p, a), t) && Fits(p.state, t) && !InAccount(w, t)
    requires y == PromoteOf(cfg, p, a) && Keyed(y.que) && w == TrimTo(y, len).(que := Keep(y.que, k))
    requires a in p.locals ==> w == y
    requires (w.que != y.que ==> full) && (w.pend != y.pend ==> |w.pend| >= cfg.accountSlots)
    ensures a !in p.locals
    ensures
      || ((forall n :: n in w.que ==> n < t.nonce) && (|w.que| == cfg.accountQueue || full))
      || ((forall n :: n in w.pend ==> n < t.nonce) && |w.pend| >= cfg.accountSlots &&
          (t.nonce in Of(p, a).que ==> forall n :: n in w.que ==> t.nonce < n))
  {
    assert AccountOk(Of(p, a), a);
    PromoteLoses(cfg, p, a, t, y);
    CutExactly(y, w, len, k);
    LosesWhere(Of(p, a), y, w, t, cfg.accountQueue, cfg.accountSlots, full);
  }

  lemma PromoteLoses(cfg: Config, p: Pool, a: Address, t: Tx, y: Account)
    requires Inv(p) && y == PromoteOf(cfg, p, a) && InAccount(Of(p, a), t) && Fits(p.state, t)
    ensures Sub(Of(p, a).pend, y.pend)
    ensures forall n, k :: n in y.pend && n !in Of(p, a).pend && k in y.que ==> n < k
    ensures !InAccount(y, t) ==> a !in p.locals && |y.que| == cfg.accountQueue && forall k :: k in y.que ==> k < t.nonce
  {
    PromoteExactly(cfg, p, a);
  }

  /** What is lost between `x` and `w`, by way of `y`. */
  lemma LosesWhere(x: Account, y: Account, w: Account, t: Tx, limit: nat, slots: nat, full: bool)
    requires InAccount(x, t) && !InAccount(w, t) && (forall n :: n in x.pend ==> n !in x.que)
    requires Sub(x.pend, y.pend) && forall n, k :: n in y.pend && n !in x.pend && k in y.que ==> n < k
    requires !InAccount(y, t) ==> |y.que| == limit && forall k :: k in y.que ==> k < t.nonce
    requires Sub(w.que, y.que) && (w.que != y.que ==> full) && (w.pend != y.pend ==> |w.pend| >= slots)
    requires forall n, d :: n in w.pend && d in y.pend && d !in w.pend ==> n < d
    requires forall n, d :: n in w.que && d in y.que && d !in w.que ==> n < d
    requires Sub(w.pend, y.pend)
    ensures
      || ((forall k :: k in w.que ==> k < t.nonce) && (|w.que| == limit || full))
      || ((forall k :: k in w.pend ==> k < t.nonce) && |w.pend| >= slots &&
          (t.nonce in x.que ==> forall k :: k in w.que ==> t.nonce < k))
  {
  }

  // ----- demotion and resets -----

  /** Demotion drops exactly the executable transactions that do not fit the state. */
  lemma DemoteExactly(p: Pool, a: Address, t: Tx)
    requires Inv(p) && t.sender == a
    ensures InAccount(DemoteOf(p, a), t) <==>
      InAccount(Of(p, a), t) && (t.nonce in Of(p, a).pend ==> Fits(p.state, t))
  {
    var x := Of(p, a);
    assert AccountOk(x, a);
    var y := x.(pend := AtLeast(x.pend, p.state.Nonce(a)));
    UnpayExactly(y, a, p.state.Balance(a), p.state.maxGas, t);
    var z := Unpay(y, p.state.Balance(a), p.state.maxGas);
    CloseGapIn(z, p.state.Nonce(a), t);
  }

  lemma UnpayExactly(x: Account, a: Address, balance: int, maxGas: nat, t: Tx)
    requires AccountOk(x, a)
    ensures
      var y := Unpay(x, balance, maxGas);
      && (InAccount(y, t) <==> InAccount(x, t) && (t.nonce in x.pend ==> t.Cost() <= balance && t.gas <= maxGas))
      && forall n :: n in y.pend ==> n !in y.que
  {
    UnpayIn(x, a, balance, maxGas);
    var r := Scan(true, x.pend, balance, maxGas);
    ScanSound(true, x.pend, balance, maxGas);
    TxSetHas(r.removed);
  }

  lemma CloseGapIn(x: Account, n: nat, t: Tx)
    requires forall i :: i in x.pend ==> i !in x.que
    ensures InAccount(CloseGap(x, n), t) <==> InAccount(x, t)
  {
  }

  /** Everything in `q` was in `p` or is one of `txs`. */
  ghost predicate Within(p: Pool, q: Pool, txs: seq<Tx>) {
    forall t :: Pooled(q, t) ==> Pooled(p, t) || t in txs
  }

  /** The accounts of `p` that are local still are, and no others but senders of `txs`. */
  ghost predicate LocalsWithin(p: Pool, q: Pool, txs: seq<Tx>) {
    && (forall a :: a in p.locals ==> a in q.locals)
    && (forall a :: a in q.locals && a !in p.locals ==> exists t :: t in txs && t.sender == a)
  }

  /** A batch of additions changes neither the state nor the floor, makes at most its senders local, and those
      only if it is local, and adds only its own transactions. */
  lemma {:induction false} AddedAllExactly(cfg: Config, p: Pool, txs: seq<Tx>, local: bool, steps: seq<Pool>,
                                           drops: seq<seq<Tx>>, rs: seq<Result>, i: nat)
    requires Inv(p) && AddedAll(cfg, p, txs, local, steps, drops, rs) && i <= |txs|
    ensures Inv(steps[i]) && steps[i].state == p.state && steps[i].gasPrice == p.gasPrice
    ensures LocalsWithin(p, steps[i], if local then txs else []) && Within(p, steps[i], txs)
  {
    if i > 0 {
      AddedAllExactly(cfg, p, txs, local, steps, drops, rs, i - 1);
      AddedAllStep(cfg, p, txs, local, steps, drops, rs, i - 1);
    } else {
      assert steps[0] == p;
    }
  }

  lemma AddedAllStep(cfg: Config, p: Pool, txs: seq<Tx>, local: bool, steps: seq<Pool>, drops: seq<seq<Tx>>,
                     rs: seq<Result>, i: nat)
    requires AddedAll(cfg, p, txs, local, steps, drops, rs) && i < |txs|
    requires Inv(steps[i]) && steps[i].state == p.state && steps[i].gasPrice == p.gasPrice
    requires LocalsWithin(p, steps[i], if local then txs else []) && Within(p, steps[i], txs)
    ensures Inv(steps[i + 1]) && steps[i + 1].state == p.state && steps[i + 1].gasPrice == p.gasPrice
    ensures LocalsWithin(p, steps[i + 1], if local then txs else []) && Within(p, steps[i + 1], txs)
  {
    AddedOne(cfg, steps[i], txs[i], local, drops[i], steps[i + 1], rs[i]);
    WithinChain(p, steps[i], steps[i + 1], txs, txs[i], local);
  }

  lemma WithinChain(p: Pool, mid: Pool, q: Pool, txs: seq<Tx>, tx: Tx, local: bool)
    requires tx in txs && Within(p, mid, txs) && Within(mid, q, [tx])
    requires LocalsWithin(p, mid, if local then txs else [])
    requires mid.locals <= q.locals <= mid.locals + if local then {tx.sender} else {}
    ensures Within(p, q, txs) && LocalsWithin(p, q, if local then txs else [])
  {
  }

  lemma AddedOne(cfg: Config, p: Pool, tx: Tx, local: bool, drop: seq<Tx>, q: Pool, r: Result)
    requires Inv(p) && Added(cfg, p, tx, local, drop, q, r)
    ensures Inv(q) && q.state == p.state && q.gasPrice == p.gasPrice && Within(p, q, [tx])
    ensures p.locals <= q.locals <= p.locals + if local then {tx.sender} else {}
    ensures r.Err? ==> Within(p, q, [])
  {
    RemoveTxsKeeps(p, drop, {});
    AddedTo(cfg, p, tx, local, drop, q, r);
    if q != p { AdmitOne(cfg, p, RemoveTxs(p, drop), tx, local, q, r); }
  }

  lemma AdmitOne(cfg: Config, p: Pool, mid: Pool, tx: Tx, local: bool, q: Pool, r: Result)
    requires Inv(mid) && SameRest(p, mid) && Within(p, mid, []) && (q, r) == Admit(cfg, mid, tx, local)
    ensures Inv(q) && q.state == p.state && q.gasPrice == p.gasPrice && Within(p, q, [tx])
    ensures p.locals <= q.locals <= p.locals + if local then {tx.sender} else {}
    ensures r.Err? ==> Within(p, q, [])
  {
    AdmitOk(cfg, mid, tx, local);
  }

  /** add leaves the pool alone or goes on to place the transaction. */
  lemma AddedTo(cfg: Config, p: Pool, tx: Tx, local: bool, drop: seq<Tx>, q: Pool, r: Result)
    requires Added(cfg, p, tx, local, drop, q, r)
    ensures (q == p && r.Err?) || (q, r) == Admit(cfg, RemoveTxs(p, drop), tx, local)
  {
  }

  lemma PromotesExactly(cfg: Config, p: Pool, q: Pool, dirty: set<Address>)
    requires Inv(p) && Promotes(cfg, p, q, dirty)
    ensures SameRest(p, q) && Within(p, q, [])
  {
    if dirty != {} {
      SettlesRest(cfg, p, q, dirty);
      SettlesPooled(cfg, p, q, dirty);
    }
  }

  /** A reset takes over the state and leaves the floor and the local accounts as they are. Everything it leaves
      was pooled or is re-injected, and fits the new state. */
  lemma ResetExactly(cfg: Config, reinject: seq<Tx>, s: State, p: Pool, q: Pool)
    requires Inv(p) && Resets(cfg, reinject, s, p, q)
    ensures q.state == s && q.locals == p.locals && q.gasPrice == p.gasPrice
    ensures forall t :: Pooled(q, t) ==> (Pooled(p, t) || t in reinject) && Fits(s, t)
  {
    var w := WayOf(cfg, reinject, s, p, q);
    ReinjectedExactly(cfg, reinject, s, p, w.steps, w.drops, w.rs, w.p1);
    DemotedPooled(w.p1, w.p2);
    FollowedPooled(w.p2, w.p3);
    ReactFits(cfg, w.p1, w.p2, w.p3, q);
  }

  lemma ReinjectedExactly(cfg: Config, reinject: seq<Tx>, s: State, p: Pool, steps: seq<Pool>, drops: seq<seq<Tx>>,
                          rs: seq<Result>, p1: Pool)
    requires Inv(p) && AddedAll(cfg, Rebased(p, s), reinject, false, steps, drops, rs)
    requires Promotes(cfg, steps[|reinject|], p1, Dirty(reinject, rs))
    ensures p1.state == s && p1.gasPrice == p.gasPrice && p1.locals == p.locals && Within(p, p1, reinject)
  {
    InvRebased(p, s);
    AddedAllExactly(cfg, Rebased(p, s), reinject, false, steps, drops, rs, |reinject|);
    PromotesExactly(cfg, steps[|reinject|], p1, Dirty(reinject, rs));
    SameLocals(Rebased(p, s), steps[|reinject|]);
  }

  lemma SameLocals(p: Pool, q: Pool)
    requires LocalsWithin(p, q, [])
    ensures q.locals == p.locals
  {
  }

  lemma ReactFits(cfg: Config, p1: Pool, p2: Pool, p3: Pool, q: Pool)
    requires Inv(p1) && Demoted(p1, p2) && Followed(p2, p3) && Inv(p3) && Settles(cfg, p3, q, p3.queue.Keys)
    ensures SameRest(p1, q) && Within(p3, q, []) && Affordable(q)
  {
    SettlesRest(cfg, p3, q, p3.queue.Keys);
    SettlesPooled(cfg, p3, q, p3.queue.Keys);
    forall a ensures ListFits(p3.state, Of(p3, a).pend) { ResetFits(p1, p2, p3, a); }
    SettlesAffordable(cfg, p3, q, p3.queue.Keys);
  }

  /** Between re-injection and promotion a reset drops exactly the executable transactions that no longer fit. */
  lemma ReactExactly(p1: Pool, p2: Pool, p3: Pool, t: Tx)
    requires Inv(p1) && Demoted(p1, p2) && Followed(p2, p3)
    ensures Pooled(p3, t) <==> Pooled(p1, t) && (Has(p1.pending, t) ==> Fits(p1.state, t))
  {
    PooledIn(p1, t);
    PooledIn(p3, t);
    assert AccountOk(Of(p1, t.sender), t.sender);
    DemoteExactly(p1, t.sender, t);
  }

  // ----- local accounts and the price floor -----

  /** Only local submissions make an account local, and only where the pool has locals at all. A new
      transaction so submitted, with nothing executable under its nonce, does. */
  lemma LocalsExactly(cfg: Config, e: Event, p: Pool, q: Pool)
    requires Inv(p) && Happens(cfg, e, p, q)
    ensures cfg.noLocals || !(e.AddLocal? || e.AddLocals?) ==> q.locals == p.locals
    ensures e.AddLocal? ==> p.locals <= q.locals <= p.locals + {e.tx.sender}
    ensures e.AddLocals? ==> forall a :: a in q.locals && a !in p.locals ==> exists t :: t in e.txs && t.sender == a
    ensures e.AddLocal? && !cfg.noLocals && !Pooled(p, e.tx) && Pooled(q, e.tx) ==>
      e.tx.nonce in Of(p, e.tx.sender).pend || e.tx.sender in q.locals
  {
    match e
    case AddLocal(tx) => SubmitsLocals(cfg, tx, !cfg.noLocals, p, q);
    case AddRemote(tx) => SubmitsLocals(cfg, tx, false, p, q);
    case AddLocals(txs) =>
      SubmitsAllLocals(cfg, txs, !cfg.noLocals, p, q);
      if cfg.noLocals { SameLocals(p, q); }
    case AddRemotes(txs) => SubmitsAllLocals(cfg, txs, false, p, q); SameLocals(p, q);
    case NewHead(reinject, s) => ResetExactly(cfg, reinject, s, p, q);
    case SetGasPrice(price) => RepricedExactly(price, p, q);
    case Evict(_) =>
  }

  lemma SubmitsLocals(cfg: Config, tx: Tx, local: bool, p: Pool, q: Pool)
    requires Inv(p) && Submits(cfg, tx, local, p, q)
    ensures p.locals <= q.locals <= p.locals + if local then {tx.sender} else {}
    ensures local && !Pooled(p, tx) && Pooled(q, tx) ==> tx.nonce in Of(p, tx.sender).pend || tx.sender in q.locals
  {
    var drop, mid, r :| Added(cfg, p, tx, local, drop, mid, r) &&
      Promotes(cfg, mid, q, if r == Ok(false) then {tx.sender} else {});
    AddedOne(cfg, p, tx, local, drop, mid, r);
    PromotesExactly(cfg, mid, q, if r == Ok(false) then {tx.sender} else {});
    if r.Ok? {
      AddedPlaces(cfg, p, tx, local, drop, mid, r);
      AdmitExactly(cfg, RemoveTxs(p, drop), tx, local);
      RemoveTxsShrink(p, drop, tx.sender);
    }
  }

  lemma SubmitsAllLocals(cfg: Config, txs: seq<Tx>, local: bool, p: Pool, q: Pool)
    requires Inv(p) && SubmitsAll(cfg, txs, local, p, q)
    ensures LocalsWithin(p, q, if local then txs else [])
  {
    var steps, drops, rs :|
      AddedAll(cfg, p, txs, local, steps, drops, rs) && Promotes(cfg, steps[|txs|], q, Dirty(txs, rs));
    AddedAllExactly(cfg, p, txs, local, steps, drops, rs, |txs|);
    PromotesExactly(cfg, steps[|txs|], q, Dirty(txs, rs));
  }

  lemma {:induction false} RemoveTxsShrink(p: Pool, txs: seq<Tx>, a: Address)
    ensures Sub(Of(RemoveTxs(p, txs), a).pend, Of(p, a).pend)
    decreases |txs|
  {
    if txs != [] {
      var k := |txs| - 1;
      var q := RemoveTxs(p, txs[..k]);
      RemoveTxsShrink(p, txs[..k], a);
      PutReads(q, txs[k].sender, Remove(Of(q, txs[k].sender), txs[k].nonce));
    }
  }

  /** A new floor drops exactly the transactions below it of accounts that are not local. */
  lemma RepricedExactly(price: int, p: Pool, q: Pool)
    requires Inv(p) && Reprices(price, p, q)
    ensures q.gasPrice == price && q.state == p.state && q.locals == p.locals
    ensures forall t :: Pooled(q, t) <==> Pooled(p, t) && ((t.signed && t.sender in p.locals) || t.price >= price)
  {
    var drop: seq<Tx> :|
      && (forall tx :: tx in drop <==> Pooled(p, tx) && !Priced.IsLocal(tx, p.locals) && tx.price < price)
      && q == RemoveTxs(p.(gasPrice := price), drop);
    InvPriced(p, price);
    RemoveTxsKeeps(p.(gasPrice := price), drop, {});
  }
}
